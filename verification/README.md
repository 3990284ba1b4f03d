# m3x in Dafny

A model of seven components of m3x, a Go utility library, with proofs of what they promise.
Where several goroutines work on the same objects, the model is a state machine whose steps
are the critical sections and the statements outside them, and the theorems hold in every
reachable state or for every run. Where one call works by itself, the model is a class or a
method with the code's own loops, proved against functions whose properties are then proved.
The refinement modules tie the two together: a call on the objects is a run of steps.

| file | component |
|---|---|
| `ContextProtocol.dfy`, `ContextTheorems.dfy`, `ContextHistory.dfy`, `ContextObject.dfy`, `ContextRefinement.dfy` | closing contexts that depend on each other (context/) |
| `WatchProtocol.dfy`, `WatchValue.dfy`, `WatchObject.dfy`, `WatchRefinement.dfy` | watches with one-slot channels, and the value that is watched again and again (watch/) |
| `HashMap.dfy` | the linear-probing hash map (generics/hashmap/) |
| `TimeRanges.dfy` | sets of time ranges (time/range.go, time/ranges.go) |
| `Duration.dfy`, `DurationUnits.dfy` | extended durations, parsed and printed (time/duration.go, time/unit.go) |
| `JumpHash.dfy`, `JumpLaw.dfy` | jump consistent hashing (hash/jump/) |
| `PoolBuckets.dfy`, `PoolProtocol.dfy`, `BytesPools.dfy`, `CheckedPools.dfy`, `PoolRefinement.dfy` | bucketized and checked byte pools (pool/, checked/) |
| `TracebackRing.dfy` | the rings of tracebacks of checked references (checked/debug.go) |
| `Common.dfy` | what several of them share |

`dafny verify dfyconfig.toml` checks the whole project.

## What the proofs say where the code falls short

- **Delete in the hash map** vacates a slot and moves nothing up. It is deletion from an
  abstract map exactly when the slot is on no other stored key's probe path
  (`HashMap.DeleteOther`, `HashMap.DeleteCorrect`, `HashMap.DeleteKeepsInvariant`).
  `HashMap.DeleteLoses` is a run that loses a key, and `HashMap.DeleteRevives` continues it
  to one that brings back an old value.
- **SetUnsafe of the hash map marks a key to be finalized even if the map has no finalize
  function.** A run panics exactly when some Delete or Reset then removes such a key
  (`HashMap.RunPanicsIff`, `HashMap.RunAgrees`; never with a finalize function or when
  every SetUnsafe asks for no finalization, `HashMap.NoPanic`).
  `HashMap.SetThenDeletePanics` is such a run of two calls.
- **Reallocate of the hash map** forgets the keys that were to be finalized
  (`HashMap.ReallocateForgets`); apart from that every key stored to be finalized is
  finalized exactly once (`HashMap.KeysAreConserved`).
- **A dependency on a context that is closed already** is counted but never called back. A
  closed system comes to rest with something unfinalized exactly when a context that has
  finalizers made such a dependency, or when dependencies form a cycle
  (`ContextTheorems.RestsUnfinishedIff`); `ContextTheorems.ClosedBlockerStarves` and
  `ContextTheorems.MutualDependencyStarves` are such runs.
- **DependsOn holds its context's lock while it waits for the blocker's.** The call never
  returns exactly when such calls wait for each other in a loop
  (`ContextTheorems.HangsIff`), as when a context depends on itself
  (`ContextTheorems.SelfDependencyHangs`) or two contexts on each other at the same time
  (`ContextTheorems.CrossedDependenciesHang`).
- **Watch sends its first notification after it has released the lock.** That send panics
  exactly when the watchable's Close has got to its channel in between
  (`WatchProtocol.WatchSendPanicsIff`, with a run in `WatchProtocol.OvertakenWatchPanics`).
- **The minimum int64 duration** prints as `-` and is read back as zero; every other duration
  comes back (`Duration.ParsePrint`).
- **From bucket 2^32 - 1 on the jump hash's product need not fit an int64**
  (`JumpHash.AlwaysFitsIff`); with 2^32 buckets or more its promises hold for the keys whose
  products do.
- **Finalize of a pooled buffer does not look at its references**
  (`PoolProtocol.FinalizeKeepsReferences`, with a run in `PoolProtocol.ReferenceSurvives`),
  so that there are none is a condition on its caller.

## How things are modelled

- A `time.Time` is an integer and a Go string a sequence of characters. An `int64` or
  `uint64` is an integer with the wrap-around written out where the code can overflow.
- A `float64` operation is the exact operation on reals followed by a rounding function that
  is a parameter; it is only known to be monotone and exact on the numbers `m` and `m * 2^31`
  with `m` of at most 53 bits (`JumpHash.Float64Rounding`). The conversion to `int64` is a
  parameter too, of which only the numbers that fit are known.
- The list of `container/list` is a sequence in a field, an element its place in it.
- A Go slice is a backing array and a length; where append may choose a capacity, any choice
  that is large enough is allowed, or one is made that no contract mentions.
- Versions, tickets, histories and start orders in the state machines are bookkeeping for the
  theorems; no step looks at them.
- What users' functions, clocks, other owners of a channel and the Go runtime do is a
  parameter of a step. Where the code panics, a step is not enabled or a method has a
  precondition, except in the watch protocol, where panics are part of the state, in the
  hash map, whose runs end with a panic and whose methods say whether they do, and in Init
  of the byte pools.
- A call that waits for a lock which is never given back does not return; methods of
  `ContextObject` say whether they do.

## Model

| member | source | states |
|---|---|---|
| ContextProtocol.ChildActsAsRoot | context/context.go:80-191 | IsClosed, Register, Close and DependsOn on a child at any depth have exactly the effect they have on its root |
| ContextProtocol.InvStep | context/context.go:113-241 | every step keeps the invariant: histories, callbacks and tickets agree, the wait group counts the tickets not called back, and a started context was called back on all its tickets by contexts that started before it |
| ContextProtocol.InvReachable | context/context.go:156-158 | the invariant holds in every reachable state, and no wait group ever goes negative |
| ContextProtocol.RunOneCallsBack | context/context.go:224-234 | calling one finalizer turns exactly the ticket it carries, if any, from outstanding to called back |
| ContextTheorems.RunGrows | context/context.go:113-241 | over any run histories and tickets are only added to, and a closed context accepts nothing more |
| ContextTheorems.ExecutedInOrder | context/context.go:220-241 | in every reachable state the calls made are a prefix of the accepted registrations, so each runs at most once and in order; a finished context has run them all |
| ContextTheorems.NothingAfterClose | context/context.go:113-117 | after a context was closed, whatever happens, it runs only what it had accepted by then, and registering changes nothing |
| ContextTheorems.BlockerRunsFirst | context/context.go:138-158 | if a context starts its finalizers after a DependsOn, the blocker was open then, started earlier, and has run everything registered on it before that DependsOn, and the callback |
| ContextTheorems.TransitiveBlockersFirst | context/context.go:138-241 | along any chain of dependencies from a started context every blocker has called back, and the last started before the first |
| ContextTheorems.DroppedNeverStarts | context/context.go:114-150 | a context that depended on a closed one never starts its finalizers, in any continuation |
| ContextTheorems.RestsUnfinishedIff | context/context.go:193-241 | a closed system at rest has an unfinalized context if and only if a context with finalizers had a dropped dependency or registered dependencies form a cycle |
| ContextTheorems.InternalRunBounded | context/context.go:193-241 | in a closed system every run of the protocol's own steps is at most as long as a rank of the state |
| ContextTheorems.ClosedSystemFinalizes | context/context.go:193-241 | without dropped dependencies and cycles, while something is unfinalized a step is possible, and runs are bounded |
| ContextTheorems.ClosedBlockerStarves | context/context.go:147-150 | a reachable state in which all contexts are closed and one is starved for good |
| ContextTheorems.MutualDependencyStarves | context/context.go:147-150 | a reachable state in which two closed contexts wait for each other for good, without a dropped dependency |
| ContextTheorems.HangsIff | context/context.go:145-153 | a DependsOn under way never returns, in any continuation, if and only if calls of DependsOn wait for each other's locks in a loop that it runs into; its context then stays open |
| ContextTheorems.SelfDependencyHangs | context/context.go:145-153 | a reachable state in which a context that depends on itself waits for its own lock |
| ContextTheorems.CrossedDependenciesHang | context/context.go:145-153 | a reachable state in which two contexts that depend on each other at the same time wait for each other's lock |
| ContextHistory.HistoryIsTold | context/context.go:93-191 | in every run, told from its actions alone: contexts have the parents they were made with, exactly those are closed that Close was called on, they have accepted exactly the finalizers and closers registered before that, in order, and there is one dependency, on the right contexts, for every DependsOn that found its context open |
| ContextHistory.AcceptedAsRegistered | context/context.go:93-132 | a root accepts a finalizer or closer as often as it was registered while the root was open, and has run it exactly that often when it is finished |
| ContextObject.Ctx.IsClosed | context/context.go:80-91 | answers for the root of the parent chain, unless its lock is held |
| ContextObject.Ctx.RegisterFinalizer | context/context.go:93-101 | appends to the list of an open, unlocked root at any depth and changes nothing else |
| ContextObject.Ctx.RegisterCloser | context/context.go:103-111 | appends to the list of an open, unlocked root at any depth and changes nothing else |
| ContextObject.Ctx.RegisterFinalizeable | context/context.go:113-132 | appends to an open context's list, allocated or not, and leaves a closed one alone |
| ContextObject.Ctx.DependsOn | context/context.go:138-153 | an open root waits for one more and is registered with the blocker's root, which drops it when closed; a closed root changes nothing; the call does not return, and keeps its lock, exactly when it needs a lock that is held, its own included |
| ContextObject.Ctx.Finalize | context/context.go:156-158 | takes one off the wait group |
| ContextObject.Ctx.Close | context/context.go:167-218 | closes the root once and hands over exactly what was registered; it waits exactly when something was |
| ContextObject.Ctx.RunFinalizers | context/context.go:220-234 | calls everything captured once, in the order of registration, and calls back each dependent once per registration |
| ContextObject.Ctx.Child | context/context.go:264-285 | a child has its parent's root |
| ContextRefinement.RootAgrees | context/context.go:80-173 | objects and protocol find the same root |
| ContextRefinement.New | context/context.go:264-285 | making a context or child is one step of the protocol |
| ContextRefinement.Register | context/context.go:93-132 | registering is one step of the protocol |
| ContextRefinement.DependsOn | context/context.go:138-153 | DependsOn is its first half and, exactly if it returns from an open context, its second half |
| ContextRefinement.Close | context/context.go:167-218 | Close is the mark and the capture; what it hands over is what was captured |
| ContextRefinement.CallNext | context/context.go:224-234 | one call of a finalizer is one step |
| ContextRefinement.RunFinalizers | context/context.go:220-241 | finalize is a run of the protocol that finishes the context |
| WatchProtocol.InvStep | watch/watch.go:87-214 | every step keeps the invariant on channels, lock and wakeups |
| WatchProtocol.ChannelsCloseOnce | watch/watch.go:112-182 | in every interleaving a channel is closed at most once, active holds each open channel once, and Update and both ways to close never panic |
| WatchProtocol.WatchSendPanicsIff | watch/watch.go:95-105 | a step panics if and only if it is Watch's own notification of a value on a channel that the watchable's Close has passed |
| WatchProtocol.NoPanic | watch/watch.go:95-105 | a run in which no Close of the watchable begins between a Watch's unlock and its send does not panic |
| WatchProtocol.OvertakenWatchPanics | watch/watch.go:98-105 | the other runs exist |
| WatchProtocol.NoLostWakeups | watch/watch.go:95-130 | in every reachable state a watch not closed by its owner has read the latest version, or has or will get a notification, or nothing was published since it was made |
| WatchProtocol.ClosedIsFinal | watch/watch.go:116-118 | the value never changes after close |
| WatchProtocol.DrainedSawFinalValue | watch/watch.go:148-162 | a consumer that drained its channel until the watchable closed it has read the final value |
| WatchProtocol.LockExcludes | watch/watch.go:87-182 | while Update or Close holds the lock nobody else watches, updates, reads or closes under it |
| WatchProtocol.ClosedChannelPanics | watch/watch.go:98-105 | a send on a closed channel and closing it again are what panics |
| WatchProtocol.NoSpuriousWakeups | watch/watch.go:95-130 | over any run a consumer takes no more notifications than were sent to it |
| WatchProtocol.ReadsWhatItTook | watch/watch.go:193-199 | and reads the value at most once for each that it takes |
| WatchProtocol.ValueIsPublished | watch/watch.go:112-130 | in every run the value is that of the last Update before Close, and the watchable is closed if and only if Close was called |
| WatchObject.Watchable.Watch | watch/watch.go:87-110 | a new open channel at the end of active, with a notification exactly when there is a value, and the value; an error exactly when closed |
| WatchObject.Watchable.Update | watch/watch.go:112-130 | sets the value and leaves a notification in every active channel, never sending on a closed one |
| WatchObject.Watchable.Close | watch/watch.go:148-162 | closes every active channel once and keeps what is in its slot |
| WatchObject.Watchable.CloseFunc | watch/watch.go:164-182 | closes the channel and removes exactly it from active, unless the watchable is closed |
| WatchObject.Watch.Close | watch/watch.go:201-214 | the close function is called once however often Close is |
| WatchObject.Value.Watch | watch/value.go:94-128 | starts watching a new updatable once, processes at most one first update, and starts the goroutine even when that fails |
| WatchObject.Value.Unwatch | watch/value.go:130-141 | closes the watched updatable once and forgets it |
| WatchObject.Value.HandleUpdate | watch/value.go:145-163 | one notification is handled exactly while the goroutine's own updatable is watched, and otherwise the loop ends |
| WatchObject.Value.WatchUpdates | watch/value.go:143-164 | while nobody calls Watch or Unwatch the loop handles every notification of a watched updatable, and none of another |
| WatchValue.InvStep | watch/value.go:94-171 | every step keeps the invariant that ties the log to what is watched |
| WatchValue.StaleWatchersNeverAct | watch/value.go:94-171 | in every run each process call belongs to the updatable watched at that moment, loop calls come from its only goroutine, an updatable is closed by the value at most once, and the watched one has a live goroutine until its channel is closed |
| WatchValue.NothingBetweenUnwatchAndWatch | watch/value.go:130-151 | nothing is processed between an Unwatch and the next Watch |
| WatchValue.LockExcludes | watch/value.go:94-171 | while Watch holds the lock nobody watches, unwatches or handles a notification |
| WatchValue.ReceivedIsHandled | watch/value.go:143-164 | in every run a goroutine has handled each notification it received once, except for the one it may be at |
| WatchValue.NotificationIsHandled | watch/value.go:143-164 | a notification to the watched updatable reaches its goroutine, is processed if there is something to process, and is used up |
| WatchValue.LastNotificationIsReceived | watch/value.go:144 | a notification that is in the channel when it is closed is still received |
| WatchValue.ClosedChannelEnds | watch/value.go:144 | when the channel is closed and empty its goroutine ends |
| WatchValue.StaleGoroutineEnds | watch/value.go:143-152 | a goroutine whose updatable is not watched any more ends within two steps of its own and processes nothing |
| WatchRefinement.Update | watch/watch.go:112-130 | Update with its loop is a run of the protocol |
| WatchRefinement.Close | watch/watch.go:148-162 | Close with its loop is a run of the protocol |
| WatchRefinement.NewWatch | watch/watch.go:87-110 | Watch is a run of the protocol |
| WatchRefinement.CloseWatch | watch/watch.go:164-214 | Close of a watch is a run of the protocol |
| WatchRefinement.Take | watch/watch.go:193-195 | taking a notification is one step |
| WatchRefinement.Read | watch/watch.go:197-199 | Get of a watch is one step, and returns what the consumer has seen then |
| WatchRefinement.WatchValue | watch/value.go:94-128 | Watch of the value is a run of its protocol |
| WatchRefinement.Unwatch | watch/value.go:130-141 | Unwatch is one step of its protocol |
| WatchRefinement.HandleUpdate | watch/value.go:145-163 | handling a notification is one step, whatever happened since it was received |
| HashMap.ProbeArithmetic | generics/hashmap/map.go:147-158 | the probe increments its hash modulo 2^64 |
| HashMap.HashesAreUint64 | generics/hashmap/map.go:147-158 | the modulus is 2^64 |
| HashMap.ProbeTerminates | generics/hashmap/map.go:147-158 | with a free slot every probe stops, in spite of the wrap at 2^64 |
| HashMap.ProbeFindsStored | generics/hashmap/map.go:147-158 | in a well-formed map the probe for a stored key ends in its slot |
| HashMap.SetCorrect | generics/hashmap/map.go:189-207 | set keeps the probe invariant and changes the answer for equal keys only; a stored key keeps its mark |
| HashMap.DeleteRemoves | generics/hashmap/map.go:229-239 | after Delete(k) from a well-formed map k is absent |
| HashMap.DeleteOther | generics/hashmap/map.go:139-144 | for another key the answer survives if and only if it is not stored or the vacated slot is not on its probe path |
| HashMap.DeleteKeepsInvariant | generics/hashmap/map.go:139-144 | the probe invariant survives Delete if and only if the vacated slot is on no stored key's path |
| HashMap.DeleteCorrect | generics/hashmap/map.go:229-239 | Delete is deletion from the abstract map if and only if it cuts no probe path, and if and only if the probe invariant survives |
| HashMap.RunAgrees | generics/hashmap/map.go:139-258 | a run of Set, SetUnsafe, Delete that cuts no path, Reset and Reallocate panics if and only if a key marked in the abstract map is removed without a finalize function; otherwise Get answers, and marks are, what the last operations on the key say |
| HashMap.EntryOrigin | generics/hashmap/map.go:129-207 | after any run a slot is in use if and only if an operation filled it and none vacated it since; it holds a copy of that operation's key, or the key itself if it asked for no copy, and the mark it asked for, whether the map can finalize or not |
| HashMap.RunPanicsIff | generics/hashmap/map.go:139-182 | any run, whatever its Deletes cut, panics if and only if there is no finalize function and a Delete or Reset removes an entry that an earlier operation stored to be finalized |
| HashMap.NoPanic | generics/hashmap/map.go:139-182 | no run panics when there is a finalize function, or when every SetUnsafe has NoFinalizeKey |
| HashMap.SetThenDeletePanics | generics/hashmap/map.go:139-182 | SetUnsafe and Delete of a key in a map without a finalize function panics |
| HashMap.SetOnlyRunAgrees | generics/hashmap/map.go:161-207 | without Delete nothing but room is needed |
| HashMap.ShortRunHasRoom | generics/hashmap/map.go:189-207 | no run of at most 2^64 operations lacks room |
| HashMap.KeysAreConserved | generics/hashmap/map.go:129-258 | over any run that does not panic, faithful or not, every key stored to be finalized has been finalized once since, or is still stored, or was forgotten by Reallocate |
| HashMap.NothingFinalized | generics/hashmap/map.go:139-144 | without a finalize function no run finalizes anything, whether it panics or not |
| HashMap.ReallocateForgets | generics/hashmap/map.go:252-258 | a run that stores a key to be finalized and forgets it |
| HashMap.ResetFinalizes | generics/hashmap/map.go:243-247 | in whatever order Reset goes, it finalizes every marked key once per slot |
| HashMap.DeleteLoses | generics/hashmap/map.go:139-144 | a run on two colliding keys in which Delete of the first hides the second |
| HashMap.DeleteRevives | generics/hashmap/map.go:139-144 | its continuation brings back a value of the second key that was deleted since |
| HashMap.Map.Get | generics/hashmap/map.go:147-158 | the loop terminates and computes the lookup |
| HashMap.Map.Contains | generics/hashmap/map.go:223-226 | whether the lookup finds a value |
| HashMap.Map.Set | generics/hashmap/map.go:161-166 | performs the operation of the run model |
| HashMap.Map.SetUnsafe | generics/hashmap/map.go:177-182 | performs the operation of the run model, with or without a finalize function |
| HashMap.Map.SetEntry | generics/hashmap/map.go:189-207 | replaces the value in the key's slot or fills the first free one, keeping the stored key and its mark |
| HashMap.Map.Delete | generics/hashmap/map.go:229-239 | vacates the key's slot and finalizes a marked key; panics exactly when the run model does, with the slot vacated |
| HashMap.Map.RemoveMapKey | generics/hashmap/map.go:139-144 | vacates the slot and finalizes a marked key; panics if and only if the key is marked and there is no finalize function |
| HashMap.Map.Reset | generics/hashmap/map.go:243-247 | empties the map in any order, finalizing every marked key exactly once; without a finalize function it panics at the first marked key it comes to |
| HashMap.Map.Reallocate | generics/hashmap/map.go:252-258 | empties the map |
| TimeRanges.OverlapsMeansCommonPoint | time/range.go:60-62 | non-empty ranges overlap if and only if they have a point in common |
| TimeRanges.IntersectPoints | time/range.go:72-84 | Intersect is exactly the common points, and there exactly when there are any |
| TimeRanges.SubtractPoints | time/range.go:107-136 | Subtract leaves the maximal pieces, at most two, in order, with exactly the remaining points; nothing exactly when the other range contains this one, and the range itself when they share no point |
| TimeRanges.RangeOrder | time/range.go:46-105 | Before, Overlaps, Contains, Merge and Intersect by the instants before a start or an end, empty ranges included |
| TimeRanges.SubtractEmpty | time/range.go:107-136 | an empty range strictly inside another one cuts it in two, and changes nothing elsewhere |
| TimeRanges.AddIsUnion | time/ranges.go:124-145 | adding a range is union of points and keeps the list sorted, disjoint and without empty ranges |
| TimeRanges.AddJoins | time/ranges.go:124-145 | a range that shares no point with the one added stays as it is, touching or not; one range takes the place of all others, from their least start, and its own, to the greatest end |
| TimeRanges.EmptyChangesNothing | time/ranges.go:124-150 | adding or removing an empty range changes nothing |
| TimeRanges.RemoveIsDifference | time/ranges.go:147-169 | removing a range is difference of points and keeps the list sorted, disjoint and without empty ranges |
| TimeRanges.RemoveLeavesPieces | time/ranges.go:147-169 | every range that is left is a maximal piece of one that was there, every remaining point is in one of its own range, and ranges that share no point stay as they are |
| TimeRanges.AddAllIsUnion | time/ranges.go:76-83 | adding ranges one after the other is the union of all |
| TimeRanges.RemoveAllIsDifference | time/ranges.go:93-100 | removing ranges one after the other is the difference with all |
| TimeRanges.NewRangesInAnyOrder | time/ranges.go:34-40 | the order of the given ranges does not matter for the points covered |
| TimeRanges.RemoveAllEmptyMeansSubset | time/ranges.go:93-100 | nothing is left of a after removing b if and only if a's points lie within b's |
| TimeRanges.OneRangeDecidesOverlap | time/ranges.go:56-66 | the first range not before r overlaps it if and only if any does |
| TimeRanges.RangeIter.Next | time/range_iter.go:36-46 | visits every element once, in order, and then stands before the first again |
| TimeRanges.RangeIter.Value | time/range_iter.go:49-54 | the current element, or the zero range |
| TimeRanges.Ranges.IsEmpty | time/ranges.go:51-53 | there are no points |
| TimeRanges.Ranges.FindFirstNotBefore | time/ranges.go:172-182 | the first element that is not before r |
| TimeRanges.Ranges.Overlaps | time/ranges.go:56-66 | whether some point of the collection is in r |
| TimeRanges.Ranges.Clone | time/ranges.go:185-194 | a new list with the same ranges |
| TimeRanges.Ranges.AddRangeInPlace | time/ranges.go:124-145 | edits the list into the one with r merged in |
| TimeRanges.Ranges.RemoveRangeInPlace | time/ranges.go:147-169 | edits the list into the one with r cut out |
| TimeRanges.Ranges.AddRange | time/ranges.go:69-73 | a new list; the receiver does not change |
| TimeRanges.Ranges.RemoveRange | time/ranges.go:86-90 | a new list; the receiver does not change |
| TimeRanges.Ranges.AddRanges | time/ranges.go:76-83 | the union as a new list; receiver and argument do not change |
| TimeRanges.Ranges.RemoveRanges | time/ranges.go:93-100 | the difference as a new list; receiver and argument do not change |
| TimeRanges.NewRanges | time/ranges.go:34-40 | a sorted list that covers exactly the points of the given ranges |
| Duration.ComponentsRender | time/duration.go:62-93 | tokenizing undoes rendering of number-and-unit components |
| Duration.RenderComponents | time/duration.go:62-93 | what the tokenizer returns renders to what it read |
| Duration.ParseAccepts | time/duration.go:49-99 | the value of an accepted string is the signed sum of its components modulo 2^64 |
| Duration.ParseLanguage | time/duration.go:49-99 | a string is accepted if and only if it is an optional sign and components, at least one without a sign |
| Duration.ReadingUnique | time/duration.go:62-93 | a string has at most one sign and component list |
| Duration.DecomposeSum | time/duration.go:114-128 | the greedy split over the units loses nothing |
| Duration.ParsePrint | time/duration.go:102-130 | parsing undoes printing for an int64 if and only if it is not the minimum |
| Duration.PartialSumsFit | time/duration.go:67-91 | while a value that fits is parsed, no coefficient, product or partial sum overflows |
| Duration.DecomposeCanonical | time/duration.go:114-128 | what is printed is canonical |
| Duration.PrintParse | time/duration.go:49-130 | printing undoes parsing on exactly the canonical strings |
| Duration.RoundTrips | time/duration.go:31-130 | both round trips with the package's own unit tables |
| Duration.TailsAloneDoNotSuffice | time/duration.go:114-128 | a string whose tails are smaller than the units before them and that is still not printed back |
| Duration.UnitsGood | time/unit.go:155-201 | the tables satisfy what the round trips need: descending printed units down to one nanosecond, which the parser reads as meant |
| Duration.UnitsDesc | time/unit.go:194-201 | the printed units are the valid ones |
| DurationUnits.UnitLengths | time/duration.go:31-43 | there are exactly eleven units; a nanosecond is one, and n of any other unit is read as the same duration as 1000, 60, 24, 7, 30 or 365 times n of the unit it is made of |
| DurationUnits.Int64Range | time/duration.go:49-99 | the wrapped range is that of an int64 |
| DurationUnits.WrapIsInt64 | time/duration.go:49-99 | wrapping leaves the one int64 that differs by a multiple of 2^64 |
| DurationUnits.ErrorIff | time/duration.go:49-83 | a duration is refused with an error if and only if that error fits: empty, or, after the sign, components and then no value, no unit or an unknown unit |
| DurationUnits.ParsedMicroseconds | time/duration_test.go:36 | 334us |
| DurationUnits.ParsedNegative | time/duration_test.go:41 | -334us |
| DurationUnits.ParsedMinutes | time/duration_test.go:42 | -5m4ms |
| DurationUnits.ParsedMonths | time/duration_test.go:38 | 1y6mon |
| DurationUnits.RefusedDurations | time/duration_test.go:59-64 | the errors for durations without anything, a unit or a value |
| DurationUnits.RefusedUnit | time/duration_test.go:61 | the error for 4minutes |
| DurationUnits.RefusedTail | time/duration_test.go:62 | the error for 4d3 |
| DurationUnits.PrintedZero | time/duration_test.go:79 | 0s |
| DurationUnits.PrintedMilliseconds | time/duration_test.go:83 | 999ms |
| DurationUnits.PrintedMinutes | time/duration_test.go:85 | 1m10s |
| DurationUnits.PrintedDays | time/duration_test.go:106 | -1d1h |
| Duration.ConsumeDigits | time/duration.go:67-73 | the end of the digit run and its number modulo 2^64 |
| Duration.ParseExtendedDuration | time/duration.go:49-99 | the loops compute the parser, with the same error in the same case |
| Duration.ToExtendedString | time/duration.go:102-130 | the loop computes the printer |
| Duration.MaxUnitForDuration | time/unit.go:122-153 | the largest unit that divides the duration and the exact multiple; zero nanoseconds for zero and for the minimum |
| JumpHash.JumpAdvances | hash/jump/jump.go:33 | each jump whose product fits an int64 goes strictly forward, whatever the rounding |
| JumpHash.AlwaysFitsIff | hash/jump/jump.go:33 | the product fits for every key if and only if the bucket is below 2^32 - 1 |
| JumpHash.FitsAdvances | hash/jump/jump.go:29-36 | a key whose products fit moves strictly forward below n buckets |
| JumpHash.HashLoop | hash/jump/jump.go:29-36 | the loop terminates in the last bucket of the key's move sequence that exists |
| JumpHash.Hash | hash/jump/jump.go:24-37 | the result is in range and is the last move below numBuckets; -1 for a negative number and 0 for zero |
| JumpHash.Consistent | hash/jump/jump.go:24-37 | with more buckets a key stays where it was or moves to a new bucket |
| JumpHash.HashUnique | hash/jump/jump.go:24-37 | the bucket is determined by the key and the number of buckets |
| JumpHash.Grow | hash/jump/jump.go:24-37 | going from n to n+1 buckets a key stays put or moves to bucket n |
| JumpLaw.ExactRounds | hash/jump/jump.go:33 | exact arithmetic is one of the roundings that the results hold for |
| JumpLaw.JumpDistribution | hash/jump/jump.go:33 | with exact arithmetic, from bucket b exactly floor((b+1) * 2^31 / i) of the 2^31 values of the upper bits lead to bucket i or further, for every i beyond b, and the lower 33 bits do not matter |
| JumpLaw.TargetRounds | hash/jump/jump.go:33 | whatever the rounding, each conversion and operation is rounded once, in the source's order |
| JumpLaw.GeneratorIsBijection | hash/jump/jump.go:32 | the generator is a bijection on uint64 |
| JumpLaw.GeneratorStates | hash/jump/jump.go:32 | from 0 it goes through 1 and 2862933555777941758 |
| JumpLaw.GeneratorIsAffine | hash/jump/jump.go:32 | it is affine modulo 2^64, and so determined by these two |
| JumpLaw.HashOfOne | hash/jump/jump.go:24-37 | key 1 goes to bucket 6 of 10 |
| JumpLaw.Constants | hash/jump/jump.go:24-37 | the powers of two that the model uses |
| PoolBuckets.GetBestFit | pool/bucketized.go:100-111 | Get takes the smallest bucket that is large enough, if any |
| PoolBuckets.PutBestFit | pool/bucketized.go:113-124 | Put takes the largest bucket that the object is large enough for, if any |
| PoolProtocol.InvStep | pool/checked_bytes.go:49-70 | every step keeps stored buffers empty, unreferenced, stored once and as large as their bucket, whatever holders did to them |
| PoolProtocol.GetDelivers | pool/checked_bytes.go:60-62 | in every run Get answers with a buffer nobody holds, of length zero, without references and of at least the requested capacity, from the best-fitting bucket; one that is made for a bucket has the bucket's capacity |
| PoolProtocol.FinalizeBestFit | pool/checked_bytes.go:64-70 | a finalized buffer goes to a bucket if and only if that is the largest it fits, has room, and the buffer is not larger than all buckets |
| PoolProtocol.AppendCapacity | checked/bytes.go:109-119 | appending changes the capacity only when there is no room |
| PoolProtocol.FinalizeKeepsReferences | checked/bytes.go:127-131 | references at Finalize are handed to the next holder, so that there are none is for the caller to see to |
| PoolProtocol.ReferenceSurvives | checked/bytes.go:127-131 | a run to a state in which that happens |
| BytesPools.BytesPool.Init | pool/bucketized.go:69-98 | every bucket is full, and what was added has exactly the bucket's capacity and shares nothing; panics if and only if a bucket of negative capacity is to be filled |
| BytesPools.BytesPool.Get | pool/bytes.go:38-44 | an empty slice of at least the capacity, from the best-fitting bucket, that the pool no longer has |
| BytesPools.BytesPool.Put | pool/bytes.go:46-49 | the emptied slice goes to the largest bucket it fits, if that has room |
| BytesPools.AppendByte | pool/bytes.go:53-62 | the bytes and one more; a full slice is replaced by one from the pool of twice the capacity and given back to the pool; the result shares nothing with the pool, nor with a slice that was given back |
| BytesPools.AppendBytes | pool/bytes.go:53-62 | any sequence of calls yields exactly the appended bytes, in order |
| CheckedPools.CheckedBytes.IncWrites | checked/ref.go:125-139 | counts a write; a write without a reference or beside another one panics |
| CheckedPools.CheckedBytes.Resize | checked/bytes.go:103-107 | the length changes, the backing array does not |
| CheckedPools.CheckedBytes.Append | checked/bytes.go:109-113 | the bytes and one more, in place while there is room |
| CheckedPools.CheckedBytes.AppendAll | checked/bytes.go:115-119 | the bytes and all the others, in place while there is room |
| CheckedPools.CheckedBytes.Reset | checked/bytes.go:121-125 | the new slice |
| CheckedPools.CheckedBytesPool.Init | pool/checked_bytes.go:49-58 | every bucket is full of ready buffers that share nothing; panics exactly when the backing pool does |
| CheckedPools.CheckedBytesPool.Get | pool/checked_bytes.go:60-62 | a ready buffer of at least the capacity, apart from everything the pool still has: the first of the smallest bucket that is large enough, or a new one |
| CheckedPools.CheckedBytesPool.Put | pool/bucketized.go:113-124 | the buffer goes to the largest bucket it fits, if that has room |
| CheckedPools.CheckedBytesPool.FinalizeBytes | pool/checked_bytes.go:64-70 | whatever a holder made of the buffer, it is stored empty in the largest bucket that its capacity is enough for, if that has room |
| CheckedPools.AppendSwapped | pool/checked_bytes.go:74-107 | a full buffer's successor is a buffer of twice the capacity that the pool gives up |
| CheckedPools.AppendByteChecked | pool/checked_bytes.go:74-107 | the bytes and one more; swapped exactly when the buffer was full, and then the result is unreferenced, shares nothing with the old one, and the old one is as it was |
| CheckedPools.TakeOver | pool/checked_bytes_test.go:72-103 | a buffer that was swapped out and released goes back to the pool where its capacity belongs |
| CheckedPools.AppendBytesChecked | pool/checked_bytes_test.go:72-103 | a caller that releases swapped-out buffers gets exactly the appended bytes, in a buffer with one reference |
| PoolRefinement.Get | pool/checked_bytes.go:60-62 | Get is one step of the protocol |
| PoolRefinement.Finalize | pool/checked_bytes.go:64-70 | FinalizeBytes of a held buffer without references is one step of the protocol |
| PoolRefinement.HeldIsOutside | pool/checked_bytes.go:60-70 | a buffer that the protocol says is held is not in the pool |
| PoolRefinement.Append | checked/bytes.go:109-113 | Append is one step of the protocol |
| PoolRefinement.AppendAll | checked/bytes.go:115-119 | AppendAll is one step of the protocol |
| PoolRefinement.Resize | checked/bytes.go:103-107 | Resize is one step of the protocol |
| PoolRefinement.Reset | checked/bytes.go:121-125 | Reset is one step of the protocol |
| PoolRefinement.IncRef | checked/ref.go:42-46 | IncRef is one step of the protocol |
| PoolRefinement.DecRef | checked/ref.go:48-57 | DecRef is one step of the protocol |
| PoolRefinement.Fill | pool/bucketized.go:69-98 | filling a place of a bucket is one step of the protocol |
| TracebackRing.CyclesFrom | checked/debug.go:199-217 | the cycles from number m on hold exactly the log after finalize number m |
| TracebackRing.RingIsSuffix | checked/debug.go:187-219 | a ring of N cycles holds exactly what was logged after finalize number F-(N-1), or everything |
| TracebackRing.RingCycles | checked/debug.go:187-219 | each cycle of the ring is what was logged between two finalize events, the second of which ends it |
| TracebackRing.RingLength | checked/debug.go:187-219 | there are as many cycles as finalize events and one more, but not more than the ring has room for |
| TracebackRing.AfterMeans | checked/debug.go:200-217 | the place after finalize number m is behind a finalize event with m of them before |
| TracebackRing.RingPushed | checked/debug.go:198-217 | what one event does to the ring of a log |
| TracebackRing.Recycle | checked/debug.go:202-208 | every entry of the oldest cycle goes to the pool, and its array is cleared |
| TracebackRing.Debugger.Append | checked/debug.go:187-219 | the ring holds one event more; cycles share no array, no entry is held twice, and none that is held is in the pool |
| TracebackRing.AppendAmong | checked/debug.go:187-219 | an event on one of any number of references that share the pool of entries changes its ring only, and no two ever hold the same entry or array |
| TracebackRing.Replay | checked/debug.go:187-219 | after any events on references that share the pool each ring holds the last cycles of its own log |

## Left out

- Context pooling, Reset and StartTraceSpan: a pooled child keeps its old parent, and tracing needs libraries that are not part of this model.
- Cancellation (context/cancel.go), context options and the finalizeables array pool: setters and generated code.
- The two modes of close: they only decide which goroutine runs the finalizers.
- watch/source.go is not part of this model.
- Errors returned by users' functions and log lines of watch/value.go: an outcome of the step stands for them.
- Range.After, Since, Duration, Equal and the String methods: they would only add easy members.
- Ranges whose start lies after their end: IsEmpty only tests equality, and the operations on collections ask for ordered ranges.
- Unit.Count, UnitFromDuration, DurationFromUnit: table lookups.
- JumpHash.Hash: from 2^32 buckets on asks that the key's products fit an int64, because otherwise the conversion from float64 is not defined, and for at most 2^53 buckets, because beyond that float64(b+1) is not exact.
- JumpHash.Grow: the same.
- A recovered panic of the hash map: a run ends with its panic.
- WatchObject.Value.WatchUpdates: no Watch or Unwatch falls between two notifications; that is what `WatchValue` and `WatchObject.Value.HandleUpdate` are for.
- HashMap.Map.Get: asks for fewer than 2^64 entries, because in a full map the probe for an absent key does not end.
- Metrics, watermark arithmetic on floats and the error callbacks of an uninitialised pool in pool/object.go; its channel is the queue of a bucket, and the refill goroutine is the Fill step of `PoolProtocol`.
- Sorting of the bucket sizes: the library's sort is a condition on the capacities given.
- Slices that do not begin where their array begins, and concurrent reads and writes of one checked buffer: the counters are modelled, interleaving of their holders is not.
- MoveRef, leak detection, stack capture and the pool of program counters in checked/: runtime effects.
- server/, net/, tcp/, pprof/, process/, config/, instrument/, log/, opentracing/, clock/, retry/, sampler/, sync/, errors/, ident/, close/, resource/, unsafe/, debug/ and generated copies: plumbing, wiring or easy beside what is here.
