# A verified model of LWS

LWS runs Lua scripts inside NGINX. This project models the parts of it that carry the most logic and proves what they
are relied on for. It is checked with `dafny verify dfyconfig.toml`.

**The hash table** (`Primes`, `Probing`, `Slots`, `Keys`, `Sequences`, `OrderQueue`, `OrderedMap`, `TableSizes`,
`TableState`, `Table`, `MapLaws`, `TableRuns`, `StatCache`, `PrimeSizes`, `Counting`). Open addressing with double
hashing over a prime number of slots, tombstones, Brent's one-entry relocation, rehashing, and an order queue whose
links live in the slots and move with them. `OrderedMap` says what all this is for: an ordered list of entries with
distinct keys, optional expiry and an optional cap. Each method of `Table.Table` is proved against a function of
`OrderedMap`; `MapLaws` proves that these functions are a map, an iteration and a recency list, and `TableRuns` carries
this over to whole runs of the table, for any hash function and any allocation failures. What makes it true: the prime
size gives a full probe cycle (Euclid's lemma), every entry stays findable along its own probe sequence when another one
is relocated, removed or placed, and the load limit stays below the number of slots. `PrimeSizes` is the generator of
the sizes; what it delivers, ascending primes from 3, is what the table demands.

**The pool of Lua states** (`LuaStates`, `Pool`). Requests, states, timers and the request queue as a class whose
methods are the handlers; `Pool.Pool.EventLoop` takes any sequence of events. Between events no wake-up is lost, the
counters are exact, every request is accounted for, every idle state is fit for use, and a closed state is in no queue
and has no timer armed.

**Response streaming** (`FlushBook`, `Streaming`). The Lua thread writes a pipe that event handlers read while the
finalization handler may end the request; `Streaming.Request.EventLoop` takes any interleaving, down to single passes of
the read loop. `FlushBook` follows each byte of the body into the pipe.

**Profiler and monitor** (`Profiler`, `ProfilerRuns`, `Monitor`). `ProfilerRuns.Run` takes any sequence of hook events
and tells every number the profiler holds from these events alone.

**The limited allocator** (`Allocator`), **decoders** (`ByteStrings`, `Decoding`, `Arguments`) and **header folding**
(`RequestHeaders`, `Cookies`).

What enters from outside is a parameter: clock readings, the outcome of allocations and of calls into NGINX and Lua, and the
order of events.

## Where code and comments part, and what else came out

- The comment `t->load >= load` on table creation holds if and only if the requested load is below the largest size
  (`TableSizes.CreatedLoad`).
- Keys are compared like C strings, so a NUL hides what follows it, provided that the hashes agree: the hash covers the
  hidden bytes and is compared first. Whatever the 64-bit hash, there are two such keys of twelve bytes
  (`Keys.NulHidesTheRest`). For keys without NUL the comparison is equality of the case-folded bytes (`Keys.NulFreeIdentity`).
- When the initialization of a new Lua state fails, a counter is decremented that was never incremented. The exact law is
  that the counter is the number of live states minus the number of failed initializations, modulo 2^64
  (`Pool.Pool.CreateState`). After such failures a queued request can be left with nothing to wake it up;
  `Pool.Pool.StrandedExactly` says exactly when, `Pool.StrandedRequest` is a run where it happens and after which the
  request waits through every further run, and `Pool.Pool.NeverStranded` excludes it as long as every initialization
  succeeds.
- For the same reason the limit on states is no limit: it is exceeded by at most the number of failed initializations
  (`Pool.Pool.LiveBound`), and for every limit from two on and every such number there is a run that exceeds it by just
  that many (`Pool.Overrun`). A limit of one is never exceeded.
- That every idle state has run its init chunk exactly once is false: a state whose thread task could not be posted goes
  back to the pool unused (`Pool.IdleWithoutInit`). Over every run an idle state has run a configured init chunk exactly
  once if it has completed a request and not at all otherwise, and all of them have completed one as long as every thread
  task could be posted (`Pool.Pool.InitOfIdleStates`).
- That a status served from the stat cache is less than the timeout old is false, since the timeout counts from the time
  of storing: with a timeout of 10, `StatCache.StaleStatus` serves a status of age 14, when the file is gone. A served status
  is less than the timeout and the time it took to store it old; for a positive timeout an observation is always served in time if
  and only if the clock read the same at its `stat` call and at storing (`StatCache.FreshExactly`).
- The final marker is never sent by the finalization handler, that branch is dead. The branch for a pipe that ends before
  the response was sent is taken only if some call of `ngx_http_send_header` reported no error and yet left the header
  unmarked as sent; `Streaming.UnmarkedHeader` is such a run.
- A flush writes the whole body from its start, and only a complete flush discards it; so a script that flushes again
  after a write failed part-way sends twice what had been written (`Streaming.RepeatedFlush`). Over every run the pipe
  takes each byte of the body once and in order if and only if no write succeeds after a flush that had written something
  has failed (`FlushBook.OnceInOrder`), and when nothing is left to flush it has taken exactly what the script added if
  and only if no failed flush had written anything (`FlushBook.ExactWhenEmpty`). The write end of the pipe is blocking,
  since only the read end is made nonblocking (src/lws_module.c:721-731), and no write succeeds once the reader is gone;
  so a vanished client (`EPIPE`) repeats nothing, and it takes another error, such as `ENOMEM`, with the reader there.
- What a script writes after its last flush is not sent while streaming: the pipe and the unflushed body together are what
  the script wrote, as long as failed flushes have written nothing (`FlushBook.NothingWasted`).
- Unfolding a Set-Cookie value inverts folding exactly for the cookie lists that `Cookies.Foldable` describes; this is more
  than lists of cookies with one comma in each Expires attribute.
- The result of a chunk is cut down to a C `int` before its sign is examined (`LuaStates.ToInt`).
- Nanoseconds stay in 0..10^9 inclusive, since the carry test is strict.

## Model

| member | source | states |
|---|---|---|
| Primes.EuclidsLemma | src/lws_table.c:386-407 | a prime number of slots divides no product of a smaller number of steps and a smaller step width, which is why a probe sequence does not meet itself early |
| Primes.AlwaysAnotherPrime | gen/table.c:40-48 | above every number there is a prime, so the search for the next one ends |
| Primes.OddPrimeGap | src/lws_table.c:345-347 | different prime sizes from 3 on are at least two apart, so a larger size raises the load limit |
| PrimeSizes.Isqrt | gen/table.c:11-20 | adding up odd numbers yields the floor square root |
| PrimeSizes.TestPrime | gen/table.c:22-38 | trial division by 2, 3 and 6k-1, 6k+1 up to the square root decides primality, in both directions |
| PrimeSizes.SixWheel | gen/table.c:32-36 | once 2 and 3 are ruled out, two tests settle six consecutive candidates |
| PrimeSizes.NoDivisorAboveRoot | gen/table.c:31-37 | no divisor up to the root means no divisor at all |
| PrimeSizes.NextPrime | gen/table.c:40-48 | the result is the least prime at or above the argument |
| PrimeSizes.GrowthByThird | gen/table.c:59-59 | the steps start from 3, and each is four thirds of the one before, rounded down |
| PrimeSizes.GenerateSizes | gen/table.c:50-79 | the sizes are ascending primes from 3 on, and exactly the least primes above the growth steps below the limit |
| TableSizes.FindSize | src/lws_table.c:325-343 | binary search finds the least size that is large enough, or reports that there is none |
| TableSizes.LoadBounds | src/lws_table.c:345-347 | the load limit is at least 1 and always leaves a free slot |
| TableSizes.LoadFactor | src/lws_table.c:345-347 | the load limit is at most 87.5 percent of the slots and falls short of that by less than three |
| TableSizes.GrownSize | src/lws_table.c:349-368 | the size a rehash picks is a prime with a strictly higher load limit |
| TableSizes.CreatedLoad | src/lws_table.c:96-101 | a created table takes the requested load without a rehash if and only if that load is below the largest size |
| TableSizes.LargestLoadNotTaken | src/lws_table.c:96-101 | asked for a load of the largest size, creation takes that size, whose load limit is lower |
| Probing.ProbesDiffer | src/lws_table.c:386-407 | no slot is visited twice within as many probes as there are slots |
| Probing.FullCycle | src/lws_table.c:386-407 | for every hash the probe sequence is a permutation of all slots |
| Probing.BackAtStart | src/lws_table.c:400-403 | the test for having come round holds after exactly as many steps as there are slots, not before |
| Keys.FoldsLetters | src/lws_table.c:308-314 | case folding turns the capital letters of ASCII into the small ones and changes no other byte |
| Keys.MatchIsIdentity | src/lws_table.c:395-398 | the lookup test (hash, length, text) is equality of identities, hence an equivalence |
| Keys.NulFreeIdentity | src/lws_table.c:395-398 | keys without NUL are told apart exactly by their case-folded bytes, whatever the hash |
| Keys.NulHidesTheRest | src/lws_table.c:297-323 | whatever the 64-bit hash, there are two different keys, starting with a NUL, that are one key to the table |
| Slots.MoveTrail | src/lws_table.c:435-465 | a relocated entry, wrapped round or not, has no unused slot on its way and is at most as many probes further as it moved |
| Slots.RelocateKeepsFindable | src/lws_table.c:461-465 | relocating an occupant and settling the new entry in its place keeps every entry findable |
| Slots.PlaceKeepsFindable | src/lws_table.c:251-255 | writing an entry where its own probe sequence leads keeps every entry findable |
| Slots.RemoveKeepsFindable | src/lws_table.c:474-484 | a tombstone keeps every other entry findable |
| Slots.MoveIsCheaper | src/lws_table.c:428-466 | a relocation makes the summed probe length strictly smaller than the first free slot would |
| OrderQueue.RemoveLinks | src/lws_table.c:475-475 | unlinking an element leaves a consistent circular list of the others in order |
| OrderQueue.RelocateLinks | src/lws_table.c:461-465 | copying an element's links and repairing its neighbours keeps the list and its order, with the new slot in place of the old |
| OrderQueue.Queue.Remove | src/lws_table.c:474-476 | the links after removal spell the order without the element |
| OrderQueue.Queue.InsertTail | src/lws_table.c:256-256 | the links after insertion spell the order with the slot at its end |
| OrderQueue.Queue.InsertHead | src/lws_table.c:379-379 | the links after insertion spell the order with the slot at its head |
| OrderQueue.Queue.Relocate | src/lws_table.c:461-465 | two writes to the neighbours of a copied element keep the order |
| TableState.LiveSlotsAreQueued | src/lws_table.c:474-484 | the number of live slots is the length of the order queue (which is the entry count) |
| TableState.PassedMeansAbsent | src/lws_table.c:386-407 | a search that met an unused slot or came round proves that no live slot has the key |
| TableState.PlacedFindable | src/lws_table.c:409-472 | wherever an insertion puts the new entry, every entry is findable afterwards |
| TableState.MovedExactly | src/lws_table.c:424-466 | an occupant is moved if and only if some move costs less than the new entry saves by it |
| TableState.PlacedCost | src/lws_table.c:424-471 | with a relocation the summed probe length is strictly smaller than without; without one the entry goes to its first free slot |
| TableState.InsertFits | src/lws_table.c:250-258 | an insertion turns slots and queue into those of the list with the entry appended |
| TableState.RemoveFits | src/lws_table.c:474-484 | a removal turns slots and queue into those of the list without the entry |
| TableState.RebuildFits | src/lws_table.c:349-384 | new slots with the same entries along the queue stand for the same list |
| Table.Table.constructor | src/lws_table.c:87-109 | a new table is empty and satisfies the invariant |
| Table.Table.Create | src/lws_table.c:87-109 | creation fails only for want of memory or of a size that is large enough; the size is the least that leaves room for a seventh of the load and three more; the load limit covers the request exactly below the largest size |
| Table.Table.Find | src/lws_table.c:386-407 | a slot is returned exactly when the key is present, and the search ends even without unused slots |
| Table.Table.Choose | src/lws_table.c:409-472 | the slot is one whose occupant moves ahead at a strictly lower total, if there is any, else the first free probe |
| Table.Table.WorstCase | src/lws_table.c:414-427 | the first search ends at the first probe that sees no live slot |
| Table.Table.SearchMove | src/lws_table.c:429-471 | the second search finds a move exactly if one pays off, and after the one it settles for, while it goes on, no other does; without one its last probe is the first free one |
| Table.Table.LookAhead | src/lws_table.c:436-454 | the inner search finds the occupant's first free probe, or stops where a move would be zero-sum |
| Table.Table.Insert | src/lws_table.c:409-472 | the slot is ready for the new entry and the queue still lists the same entries in the same order, one of them possibly moved |
| Table.Table.Remove | src/lws_table.c:474-484 | the list loses exactly this entry |
| Table.Table.Get | src/lws_table.c:185-204 | result and new list are those of the ordered map: expired entries read as absent, a hit of a capped table becomes the most recent entry |
| Table.Table.Set | src/lws_table.c:206-269 | result and new list are those of the ordered map: update in place, removal, or eviction, growth and insertion; failure changes nothing but the one eviction |
| Table.Table.Add | src/lws_table.c:226-258 | an insertion succeeds if and only if there is room or memory to grow, and memory for the key if it is copied |
| Table.Table.Next | src/lws_table.c:271-295 | the successor in the list, or none for an absent or the last key |
| Table.Table.ReinsertAll | src/lws_table.c:373-381 | building the order backwards while insertions relocate entries ends with the same entries in the same order |
| Table.Table.Rehash | src/lws_table.c:349-384 | same list, no tombstones, strictly higher load limit; on failure nothing changed |
| Table.Table.Clear | src/lws_table.c:126-141 | no entry remains and every slot is unused |
| Table.Table.SetCap | src/lws_table.c:176-183 | refused for a table with entries and for a cap below 1 |
| Table.Table.SetCi | src/lws_table.c:159-165 | how keys are compared cannot change while there are entries |
| MapLaws.GetIsLookup | src/lws_table.c:185-204 | an expired entry reads as absent; a get changes no stored entry |
| MapLaws.GetByTime | src/lws_table.c:185-204 | without a timeout a get finds whatever is stored, at any time; with one, exactly until the timeout has passed |
| MapLaws.SetSucceeds | src/lws_table.c:206-269 | a removal always succeeds; a value is refused only for a new key, for want of room or of memory for the key, and then at most the eviction has happened |
| MapLaws.SetIsUpdate | src/lws_table.c:206-269 | a successful set is a map update at its key only, apart from the one eviction; the first spelling of the key stays |
| MapLaws.RemoveIsDelete | src/lws_table.c:262-267 | a removal deletes this key and no other |
| MapLaws.EvictIsDelete | src/lws_table.c:226-231 | an eviction deletes the head of the list, and only of a full capped table |
| MapLaws.WalkVisitsAll | src/lws_table.c:271-295 | repeated next visits every entry exactly once, in order |
| MapLaws.NextEnds | src/lws_table.c:271-295 | next reports the end exactly after the last key, for an absent key, and at the start of an empty table |
| MapLaws.RunIsSound | src/lws_table.c:185-269 | over every run, failures included, keys stay distinct and the cap is never exceeded |
| MapLaws.RunHolds | src/lws_table.c:185-269 | over every run of an uncapped table each key has the value and time that the operations on it alone say |
| MapLaws.GetAnswers | src/lws_table.c:185-269 | so over every run of an uncapped table a get answers with the value last set, unless it was removed, cleared or has expired |
| MapLaws.RunKeeps | src/lws_table.c:185-269 | over any run of other operations an entry keeps its value and time, in a capped table as long as fewer other keys than the cap are used |
| MapLaws.SetThenGet | src/lws_table.c:185-269 | after a successful set a get returns the value, within the timeout if there is one, until the key is set again or all is cleared, and in a capped table as long as fewer other keys than the cap have been used since |
| MapLaws.RunByRecency | src/lws_table.c:185-269 | over every run the list is sorted by last set or successful get (if capped), otherwise by insertion |
| MapLaws.EvictsLeastRecent | src/lws_table.c:226-231 | the key an eviction takes is, exactly, the least recently set or successfully got one |
| TableRuns.Perform | src/lws_table.c:126-295 | one call on a table answers and acts as on the ordered map |
| TableRuns.PerformAll | src/lws_table.c:126-295 | over any sequence of get, set, remove, next and clear, any hash and any failures, answers and contents are those of the ordered map; a set is refused only for want of memory or of a larger size |
| StatCache.BackedAfterSet | src/lws_module.c:556-560 | storing a status, evicting another and the passing of time leave every cached status backed by an observation with its `stat` and storing times |
| StatCache.ServedAge | src/lws_module.c:545-553 | what a lookup serves was observed less than the timeout, and the time it took to store it, ago |
| StatCache.ServedWhileUnexpired | src/lws_module.c:545-553 | a cached observation is served exactly until the timeout has passed since it was stored |
| StatCache.FreshExactly | src/lws_module.c:540-562 | for a positive timeout, every serving of an observation is less than the timeout after its `stat` call if and only if the clock read the same at the call and at storing |
| StatCache.StatCache.GetFileStatus | src/lws_module.c:540-562 | what is served, observed and stored is exact, and a served status was observed less than the timeout and the time it took to store it before the lookup |
| StatCache.StaleStatus | src/lws_module.c:540-562 | a run that serves a status older than the timeout for a file that is gone |
| LuaStates.LuaState.SetTimer | src/lws_state.c:152-162 | the timer is armed exactly if a limit is set, for the nearer one, in wrapping arithmetic |
| LuaStates.PlanHas | src/lws_lib.c:1070-1100 | a run should call init on its first time, pre if configured, main unless complete, and post in any case if configured, in this order |
| LuaStates.CallsExactly | src/lws_lib.c:956-1022 | chunks called one after the other all succeed exactly if each is cached, loadable or the file of an earlier one and returns nil or a C int that is not negative; otherwise the calls end with the first that does not |
| LuaStates.LuaState.Call | src/lws_lib.c:956-1022 | what a chunk call returns, completes, caches and binds, for every outcome, with the result cut down to a C int |
| LuaStates.LuaState.PreAndMain | src/lws_lib.c:1082-1091 | the main chunk runs exactly if the pre chunk does not complete the request; which of the two are called and whether they succeed is exact, and the result is that of the chunk that decided |
| LuaStates.LuaState.CallAll | src/lws_lib.c:1071-1100 | the chunks called, those cached and whether the calls succeed are those of the plan from init to post |
| LuaStates.LuaState.Run | src/lws_lib.c:1043-1121 | a run succeeds if and only if every chunk of its plan can be had and goes well, and otherwise ends with the first that does not; after success all of the plan was called and cached, init has run once, every binding to the request is cleared, and the result is that of the chunk that decided |
| Pool.Pool.Exact | src/lws_state.c:244-248 | with successful initializations the state and request counters are exact and within their limits |
| Pool.Pool.LiveBound | src/lws_state.c:220-226 | the limit on states is exceeded by at most the number of failed initializations, and a limit of one never |
| Pool.Overrun | src/lws_state.c:220-226 | for every limit from two on and every number of failed initializations a run in which the limit is exceeded by that number |
| Pool.Pool.ClosedForGood | src/lws_state.c:253-268 | over every run a closed state is not live, in no queue, serves no request and has no timer armed |
| Pool.Pool.IdleDeadline | src/lws_state.c:152-162 | over every run an idle state has its timer armed exactly if its life or its idling is limited, for the nearer of the time it was made plus the one limit and the time it became idle plus the other |
| Pool.Pool.RequestLimit | src/lws_state.c:298-318 | over every run no state is given more requests than it may serve |
| Pool.Pool.InitOfIdleStates | src/lws_lib.c:1071-1077 | over every run an idle state has run a configured init chunk exactly once if it has completed a request, else not at all; as long as every thread task could be posted, it has completed one |
| Pool.IdleWithoutInit | src/lws_module.c:849-856 | a run that leaves an idle state which has not run init |
| Pool.Pool.NeverStranded | src/lws_module.c:1141-1146 | with successful initializations a waiting request always has a timer armed or a request in progress that will arm it |
| Pool.Pool.StrandedExactly | src/lws_state.c:220-226 | a queue without timer is stranded if and only if no state is left and failed initializations have brought the counter to its limit |
| Pool.StrandRequest | src/lws_state.c:220-226 | a run of two requests after which the second is stranded |
| Pool.StrandedRequest | src/lws_state.c:220-226 | through every further run of events that request goes on waiting |
| Pool.LedgerSteps | src/lws_module.c:754-857 | whatever a handler does with a request, every request that arrived is waiting, running, failed or completed, and only one of these |
| Pool.CloseIdle | src/lws_state.c:164-174 | closing an idle state keeps every live state idle or in use by exactly one request |
| Pool.GiveBack | src/lws_state.c:344-352 | so does giving a state back |
| Pool.Pool.CloseState | src/lws_state.c:253-268 | the state is off every list and closed, with no timer armed; the counter law and the monitor's memory sum are kept |
| Pool.Pool.CreateState | src/lws_state.c:176-251 | a new state is counted, fit for use and has its timer armed for the end of its life, if that is limited; a failed initialization takes one off the counter without having added it |
| Pool.Pool.AcquireState | src/lws_state.c:270-296 | the first idle state is taken and the others stay, else a new state is created; on failure the request runs on none |
| Pool.Pool.ReleaseState | src/lws_state.c:298-353 | a state goes back to the head of the idle ones exactly if it is not to be closed, has not timed out and has requests left, with its request counted, its idle time running from now and its memory on the monitor's account; otherwise it is closed; the other requests keep theirs |
| Pool.Pool.StateHandler | src/lws_module.c:822-857 | the request runs exactly if a state and a thread task were to be had, on the first idle state if there was one, and the other requests keep their states; if only the task was not, the state is the first idle one again, or closed if that was its last request |
| Pool.Pool.BodyHandler | src/lws_module.c:754-799 | the request runs, waits at the tail of the queue or is answered with 500 or, on overflow, 503, decided exactly by capacity, queue limit and what was to be had, with the same effect on the idle states; the other requests keep their states |
| Pool.Pool.QueueHandler | src/lws_module.c:801-820 | waiting requests are taken in order until none is left or capacity is exhausted, and each for which nothing fails runs; the timer is off |
| Pool.Pool.ThreadHandler | src/lws_state.c:355-397 | the result is that of the chunk that decided if and only if every chunk of the run can be had and goes well, else -1; the state is marked for closing exactly after a Lua error or on request, otherwise it stays fit for use |
| Pool.Pool.FinalizationHandler | src/lws_module.c:1135-1146 | the state is released, closed exactly if it may not serve again, and the queue timer armed exactly if requests wait or it was armed |
| Pool.Pool.IdleTimerHandler | src/lws_state.c:164-174 | an idle state whose limit has passed is closed at once and leaves the idle list |
| Pool.Pool.BusyTimerHandler | src/lws_state.c:164-174 | a state in use is only marked, nothing else about it changes |
| Pool.Pool.Dispatch | src/lws_module.c:754-864 | each event that can happen has its effect and keeps the invariant, stranded requests stay stranded, and what is no longer live is closed |
| Pool.Pool.EventLoop | src/lws_module.c:754-864 | over every sequence of events the invariant holds: no lost wake-up, counter law, limits, request ledger, idle states fit for use and with the right deadline, closed states out of every queue without a timer; every request that came in is accounted for; stranded requests stay stranded |
| FlushBook.BookWrite | src/lws_lib.c:555-567 | which byte of the body each byte in the pipe is stays booked through a partial write, and the sizes of pipe, body and wasted bytes stay in balance |
| FlushBook.OnceInOrder | src/lws_lib.c:550-567 | the pipe took each byte once and in order if and only if no write succeeded after a flush failed part-way; then it took a prefix of what the script added |
| FlushBook.ExactWhenEmpty | src/lws_lib.c:550-567 | with an empty body the pipe took exactly what the script added if and only if failed flushes had written nothing; in any case it took that many bytes more |
| FlushBook.NothingWasted | src/lws_lib.c:550-567 | as long as failed flushes have written nothing, pipe and body together are what the script added |
| Streaming.Request.ChangeStatus | src/lws_lib.c:455-462 | the status can be set exactly until a flush has sealed the response |
| Streaming.Request.ChangeRedirect | src/lws_lib.c:642-644 | so can a redirect |
| Streaming.Request.Write | src/lws_lib.c:550-555 | data that the script writes is added to the body |
| Streaming.Request.StartFlush | src/lws_lib.c:530-555 | a flush seals the response and sets out to write the whole body, what an earlier failure left in it included, unless the response is redirected, the write end closed, or the body cannot be measured, written out or is too large |
| Streaming.Request.WriteSome | src/lws_lib.c:555-567 | a partial write moves a prefix of the data to the pipe and keeps the rest to be written; the body starts afresh exactly when all is written; each byte taken is booked |
| Streaming.Request.WriteFails | src/lws_lib.c:562-566 | a failed write ends the flush, leaves the body as it was, and what the flush had written is booked as wasted |
| Streaming.RepeatedFlush | src/lws_lib.c:550-567 | a run in which a flush after a failed write puts a byte into the pipe twice, while the reader is there |
| Streaming.Request.StreamHandler | src/lws_module.c:891-1112 | data is passed on in order, up to 16 reads; streaming goes on unless something fails; after the thread has ended each event ends the request, waits for the client or makes progress; the response is ended with the final marker only when everything was delivered |
| Streaming.Request.Pass | src/lws_module.c:949-1056 | what one pass makes of bytes, header and connection is exact for every outcome: what is read is handed on behind a header, and streaming breaks off with the code of what failed |
| Streaming.Request.Commit | src/lws_module.c:1015-1036 | the header goes out with the status of the script, and streaming goes on exactly if it could be set up, the call made no error and the response is not header-only; otherwise it breaks off with the code of the call |
| Streaming.Request.OnePass | src/lws_module.c:949-1072 | a single pass of the read loop as an event, with writes of the thread before and after it, keeps the invariant and passes on what it reads; after the thread has ended it ends the request, waits for the client or takes data from the pipe |
| Streaming.Request.WriteHandler | src/lws_module.c:911-945 | reading resumes exactly when the client can take data again and the event can be armed, else the client is waited for; a timeout or a failure aborts streaming with its code; a request already finalized stays so |
| Streaming.Request.WaitForClient | src/lws_module.c:1074-1096 | reading is paused and the client's write event armed, or, exactly if one of the two fails, streaming is aborted |
| Streaming.Request.Abort | src/lws_module.c:1098-1112 | the read end is closed once, and the request is ended exactly if finalization left that to streaming |
| Streaming.Request.EndOfFile | src/lws_module.c:979-996 | end of file completes the response exactly if the header is marked as sent, with the code of the final marker or, for a subrequest, success; otherwise the request ends with status 500, and some header call left it unmarked without an error |
| Streaming.UnmarkedHeader | src/lws_module.c:986-991 | a run in which the pipe ends before the header is marked as sent |
| Streaming.Request.FinalizationHandler | src/lws_module.c:1148-1275 | the handler ends the request exactly if it leaves no streaming pending: with the code of streaming that broke off or cannot be inspected, and with a response of its own if streaming was not used; the branch with the final marker is dead, whatever becomes of the header |
| Streaming.Request.Unflushed | src/lws_module.c:1158-1171 | if streaming turns out to be unused, the buffered body is all that the script wrote, as long as header calls mark the header as sent |
| Streaming.Request.Respond | src/lws_module.c:1192-1275 | for each result of the script, redirect, header, body and failure the code the request ends with, the header call with its status and the body are exact: 500 for a Lua error, the code of the redirect, the error status or 500 outside 100 to 599, or the script's status and whole body |
| Streaming.Request.SendErrorResponse | src/lws_module.c:1411-1440 | a header alone, a JSON body or an HTML body with the status; each path ends the request once, with the status itself if no header was sent |
| Streaming.Request.SendJson | src/lws_module.c:1442-1525 | so is each path of a JSON body, with its allocation failures |
| Streaming.Request.SendHtml | src/lws_module.c:1527-1633 | so is each path of an HTML body, with its allocation failures |
| Streaming.Request.Cleanup | src/lws_module.c:1635-1666 | however far a request got, each end of its pipe has been closed exactly once |
| Streaming.Request.Dispatch | src/lws_module.c:891-1190 | each event that can happen has its effect and keeps the invariant; without a reader nothing more is written |
| Streaming.Request.EventLoop | src/lws_module.c:891-1190 | over every interleaving the request is finalized at most once, exactly once when nothing is left to do, with the code of streaming if that broke off; the client sees a prefix of what the pipe took, all of it if the final marker was sent; the pipe took each byte of the body once and in order if and only if no write succeeded after a flush failed part-way, and with nothing left to flush exactly what the script added if and only if failed flushes had written nothing; once the reader is gone nothing is repeated; a header goes out with the final status of the script, a redirected response has streamed nothing, and a response not streamed has all that the script wrote |
| Streaming.Request.Finish | src/lws_module.c:891-1122 | once the thread has ended, a client that takes what it is offered sees the request finalized after at most two events more than there are bytes in the pipe, whatever fails |
| Profiler.Add | src/lws_profiler.c:51-58 | accumulated times add up exactly and stay normalized up to a full second |
| Profiler.AddDelta | src/lws_profiler.c:60-71 | a time difference is added exactly, with borrow and carry |
| Profiler.ChargeTop | src/lws_profiler.c:101-105 | charging the top of the stack keeps every record's depth, total and self time consistent |
| Profiler.Pop | src/lws_profiler.c:106-113 | so does leaving a function, recursion included |
| Profiler.Push | src/lws_profiler.c:166-188 | so does entering one |
| Profiler.Profiler.Hook | src/lws_profiler.c:79-190 | exactly the function on top is charged for time and memory growth since the last hook, exactly the function entered has one call more and is on top, and presence on the stack is counted from hook to hook, for calls, tail calls and returns |
| Profiler.Profiler.TimeLaw | src/lws_profiler.c:101-189 | depth is multiplicity on the stack, self times sum up to the running time, and off the stack self time is at most total time, which is the time spent on the stack |
| ProfilerRuns.NeverEntered | src/lws_profiler.c:138-148 | a function that no event entered is not running and is owed nothing |
| ProfilerRuns.Nested | src/lws_profiler.c:101-189 | the functions running before a matched run of calls, tail calls and returns go on running below those it leaves, which are as many as its calls less its returns |
| ProfilerRuns.Entering | src/lws_profiler.c:113-170 | the function entered last is the innermost one, on top of the others after a call and in place of its caller after a tail call |
| ProfilerRuns.CallAndReturn | src/lws_profiler.c:101-189 | a function that is called and returns is gone, and so is one that it ends with a tail call of |
| ProfilerRuns.RunDepth | src/lws_profiler.c:101-189 | over every matched run as many functions are running as there are calls less returns |
| ProfilerRuns.TimeBounds | src/lws_profiler.c:79-190 | over any sequence of events a function's self time is at most the running time and its total time, which is at most the time passed |
| ProfilerRuns.KeyMultiplicity | src/lws_profiler.c:101-113 | a record is on the stack as often as its function is running |
| ProfilerRuns.Run | src/lws_profiler.c:79-190 | after any sequence of hook events the profiler lists exactly the functions entered, each with the depth, calls, self time, total time and memory growth that the events alone say; self times sum up to the running time and calls to the functions entered |
| Monitor.UnknownStep | src/lws_profiler.c:268-279 | each function of the monitor strikes at most the one record of its key |
| Monitor.UnknownExactly | src/lws_profiler.c:280-283 | what is left to append are exactly the records whose keys the monitor does not have |
| Monitor.Monitor.UpdateExisting | src/lws_profiler.c:268-279 | known functions get exactly the profile's calls, times and memory; the rest of the profile is what the monitor does not know |
| Monitor.Monitor.AddNew | src/lws_profiler.c:280-317 | new functions are appended in order, each with its own figures, up to the first that cannot be afforded, and the out-of-memory flag is set exactly if there is one |
| Monitor.Monitor.Merge | src/lws_profiler.c:265-318 | merging adds exactly per key, keeps keys distinct, and loses a function exactly if memory runs out, with the flag set |
| Allocator.TotalWithout | src/lws_state.c:76-100 | the sum of the block sizes does not depend on the order of summation |
| Allocator.Memory.Allocate | src/lws_state.c:76-100 | used memory is the sum of the live blocks and within the limit, in wrapping arithmetic; a block that does not grow is never refused for the limit |
| Decoding.HexDigits | src/lws_lib.c:202-222 | the bytes taken for hex digits are the digits and the letters up to f in either case, each with its value |
| Decoding.DecodeOneStep | src/lws_lib.c:182-231 | decoding in one pass is plus-to-space followed by percent-decoding |
| Decoding.PlainText | src/lws_lib.c:182-231 | a text without a plus or a whole escape stands for itself, stray percent signs included |
| Decoding.PlainRound | src/lws_lib.c:185-199 | a round without an escape underway keeps written bytes plus decoding of the pending input equal to the result |
| Decoding.FirstDigitRound | src/lws_lib.c:202-216 | so does a round behind a percent sign, which looks at a byte that is no digit once more |
| Decoding.SecondDigitRound | src/lws_lib.c:218-230 | so does a round behind the first digit, which steps back over it if no second one follows |
| Decoding.Ending | src/lws_lib.c:233-238 | an escape cut off by the end of the input stands for itself |
| Decoding.UnescapeUrl | src/lws_lib.c:174-241 | the buffer holds the form-decoding of the input, no byte beyond the input's length is written, and the loop ends although it steps back |
| ByteStrings.SplitOfJoin | src/lws_lib.c:714-755 | splitting at a separator undoes joining parts without it |
| ByteStrings.JoinOfSplit | src/lws_lib.c:714-755 | joining undoes splitting, and no part holds the separator |
| Arguments.CountFields | src/lws_lib.c:700-709 | the count is refused exactly when there are more parts than allowed |
| Arguments.ParseArgs | src/lws_lib.c:679-757 | the table is that of the standard's parser (split, skip empty parts, first equals sign, decode, last value wins); failure exactly for a bad limit or too many fields |
| Arguments.LastValueWins | src/lws_lib.c:735-750 | a name is in the table exactly if some field has it, with the value of the last such field |
| Arguments.FieldOfOne | src/lws_lib.c:735-750 | every part but an empty one contributes its field |
| Arguments.FieldsInOrder | src/lws_lib.c:714-755 | the fields are those of the parts in order |
| Arguments.FieldByText | src/lws_lib.c:714-750 | a part is split at its first equals sign; without one it is a name with an empty value |
| Arguments.DecodingUndoesEscaping | src/lws_lib.c:174-241 | decoding inverts the form serializer on all bytes, with hex digits in capital or small letters |
| Arguments.ParsingUndoesSerializing | src/lws_lib.c:679-757 | parsing a serialized list of fields gives the table of the fields, counting one part for each |
| RequestHeaders.NamesIgnoreCase | src/lws_module.c:644-668 | names are one exactly if they are the same letter by letter but for their case |
| RequestHeaders.ValueOfOne | src/lws_module.c:651-674 | every header contributes its value under its name |
| RequestHeaders.ValuesInOrder | src/lws_module.c:651-674 | and the values of a name stay in the order of arrival |
| RequestHeaders.CountPass | src/lws_module.c:651-674 | the first pass records for each name the number of values and the length of their join |
| RequestHeaders.AllocatePass | src/lws_module.c:675-684 | exactly the names with more than one value get a buffer, of the recorded length |
| RequestHeaders.CopyPass | src/lws_module.c:685-700 | the third pass writes exactly the bytes reserved, and each buffer ends up as the join of its values in order of arrival |
| RequestHeaders.NamesAreDistinct | src/lws_module.c:655-668 | no two names of the table are the same but for their case |
| RequestHeaders.FoldHeaders | src/lws_module.c:644-700 | every name is listed once, as first spelled, with the ", "-join of its values |
| Cookies.ExpiresFollows | src/lws_module.c:1370-1377 | the look-ahead after a semicolon recognizes an Expires attribute in any case behind spaces and tabs |
| Cookies.ExpiresByName | src/lws_module.c:1370-1377 | an attribute is an Expires attribute exactly if behind spaces and tabs it starts with the word, in any case, and an equals sign |
| Cookies.PieceEnd | src/lws_module.c:1367-1385 | a piece ends at the first comma that is not that of an Expires attribute |
| Cookies.Unfold | src/lws_module.c:1363-1405 | the loops compute the pieces of the value |
| Cookies.PiecesAreSeparated | src/lws_module.c:1363-1405 | for any value the pieces are consecutive slices with only one comma and spaces between them |
| Cookies.UnfoldingInvertsFolding | src/lws_module.c:1363-1405 | unfolding the ", "-join of some cookies gives them back if and only if they are foldable |
| Cookies.WholeByAttributes | src/lws_module.c:1367-1385 | whether a cookie is scanned as a whole depends only on the commas of its attributes |
| Cookies.CookiesSurvive | src/lws_module.c:1363-1405 | non-empty cookies that do not start with a space and have no commas but one in each Expires attribute survive folding and unfolding |

## Left out

- Table memory: what the `dup` and `free` options release. Keys and values are values here; only whether copying a key succeeds matters.
- The FNV hash and its seed: any function of the case-folded key serves, so nothing is said about its quality.
- Optimality of Brent's placement: a later candidate can replace an earlier, better one, so of the move only when there is one and its improvement over not moving are stated.
- That adding two slot indices cannot overflow is demanded of the sizes (`TableSizes.ValidSizes`), not derived from the generator's limit of 2^48.
- The links of the order queue are arrays beside the slots with the sentinel as last index, in place of pointers inside the entries.
- Fields of `size_t` and `int` in the generator, the header lengths and the profiler's counters are unbounded here, as are seconds; the pool's counters, the timers, the allocator and the results of chunks have their width.
- Fairness in order of arrival: a new request may overtake queued ones when a state becomes idle, so only the order within the queue is stated.
- The pool models one location of one worker with a monitor; the monitor's other counters, the garbage collection trigger and the profiler switch are not part of it.
- Pool.Pool.CreateState: the structure that is not freed when `lua_newstate` fails is not tracked; the failure counts as lack of memory.
- Pool.Pool.ReleaseState: the memory in use after a possible collection is a parameter.
- LuaStates.LuaState.Run: file names are numbers, the Lua stack and the registry are left out, and so is the profiler around the chunks.
- Streaming: NGINX's output chains, its busy buffers and its handling of the connection are outcomes of the steps; that ending a request does not call these handlers again is taken for granted.
- Content-Length, content type and the other headers of a response; of an error body only its kind.
- Profiler.Profiler.Hook: failures of clock and memory raise Lua errors, which a script may catch, and are left out; functions are found by key in a sequence ordered by first call, in place of the table, and the naming of functions is a parameter.
- Monitor.Monitor.Merge: the shared memory and its lock are left out; growing and copying succeed or fail as parameters say.
- Arguments.ParseArgs: the buffer limit of Lua 5.1, and the default limit of 255.
- RequestHeaders.FoldHeaders: allocation failures, which end the request with status 500; names are looked up in a map by their case-folded bytes, which is what the table does for names without NUL.
- Cookies.Unfold: the failure to add another header to the list.
- Directive parsing, configuration, logging, variables, request bodies, the status table, error bodies and the monitor's output are plumbing around what is modelled.
