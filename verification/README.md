# Verification of the deduplication, log-joining and calendar code

A Dafny model of the parts of this repository where a mistake would be silent, with proofs about every input,
every run and every interleaving.

- **Client deduplication** (`DedupDict`, `DedupState`, `DedupProtocol`, `DedupSafety`, `DedupContents`). Threads cut action objects
  out of payloads and put references in their place; batches count the objects they use, send them in a dictionary
  event and give the references back. The classes are proved against functions on values; `DedupProtocol` composes
  the same functions into a step system, one step a lock region; `DedupSafety` proves its invariants over all runs, and
  `DedupContents` what a sent reference stands for. `Expansion` undoes the edit.
- **Trainer deduplication** (`LruDedupCache`, `DedupReplay`). The cache of parsed objects, its eviction rule, and where
  every example object is.
- **End to end** (`EndToEnd`, `Collisions`, `BatchDelivery`). When exactly a reference a client thread writes reaches the
  object it stands for, the runs in which it does not, and the batch's message read by the joiner.
- **Log parser and joiner** (`BinaryParser`, `Framing`, `EventJoin`, `ExampleJoiner`, `EventJoinLaws`, `LogReader`, `LogCalls`).
  The resumable message parser over any joiner, the grouping, joining and scoring of events, and both together.
- **Rewards** (`Rewards`, `CcbEvent`). The reward functions over reals, and the attribution of outcomes to slots.
- **Calendar** (`Calendar`, `CalendarArithmetic`, `Timestamps`). Day numbers and dates, weekday and month arithmetic
  with its 32-bit wrap-around, and the timestamp conversions.
- **Keyword scanner** (`KeywordScanner`).

`dafny verify dfyconfig.toml` checks everything.

## What comes in from outside

- The content hash is any function from contents to 64-bit ids, and the main results assume nothing about it.
  `add_object` and the trainer's cache compare hashes only, so a reference means its object under a condition: no other
  content stands under its hash at the client when its event is transformed, or in the trainer's cache when its
  dictionary is processed (`EndToEnd.ReferenceReadIff`). `Collisions` has the runs that fail, one at each end.
- The JSON scan for actions yields the spans, sorted, disjoint, in bounds and not empty, or an error.
- Decompression and flatbuffer decoding yield a value or nothing; the VW library's reading of a JSON value is a function
  that tells how many examples it draws and whether it returns; its label filling is a predicate.
- `io_buf` is not part of this model's source: a read of n bytes is taken to return n bytes, or all that is left.
- Map iteration yields the keys in any order.

## Where the code and its documentation differ

The model follows the code.

- `external_parser/README.md` says messages are aligned to 8 bytes by `size % 8` bytes of padding. That aligns them exactly
  when the payload size is a multiple of 4 (`Framing.AlignedIff`).
- It says the only version accepted is 1. The check looks at one byte of the four (`Framing.VersionAcceptedIff`).
- `reward::max` starts from the smallest positive float, so a batch of rewards not above it yields the default
  (`Rewards.MaxIsGreatestIff`).
- A keyword that is matched in full is lost when a longer one goes on matching and then fails
  (`KeywordScanner.FoundIffNoOvershoot`).

## Model

| member | source | states |
|---|---|---|
| EndToEnd.ReferenceReadIff | external_parser/joiners/example_joiner.cc:406-439 | for any hash, any run of the client and anything cached before: once the dictionary of a sent batch is processed, every reference of its events is known to the trainer, and as the very object that was cut out if and only if what was cached under its id is that object or, when nothing was, no other content stood under its hash at the client when the event was transformed |
| EndToEnd.TrainerKnows | external_parser/joiners/example_joiner.cc:409-438 | a listed id that is cached keeps its old example, whatever the value; a new one is read from the value |
| EndToEnd.ReferencesReachTheirObjects | rlclientlib/dedup.cc:198-255 | in particular every reference reaches its object when no two objects cut so far share a hash and the trainer has had no dictionaries but this client's |
| EndToEnd.EventsReadAsWritten | rlclientlib/dedup.cc:58-83 | the edit loses nothing but the objects: writing what the trainer knows under the references back in their place gives the original payload with each object replaced by that text, and so the payload itself when these are the objects |
| EndToEnd.ReplayTexts | external_parser/joiners/example_joiner.cc:406-439 | over any series of dictionary events, processed well or badly, each cached example was parsed from an object with the hash it is cached under |
| EndToEnd.CacheIsPayload | external_parser/joiners/example_joiner.cc:406-446 | after a successful non-empty dictionary event the cached ids are its ids and no others |
| Collisions.ClientCollisionExample | rlclientlib/dedup.cc:28-35 | for any two objects with one hash: a run that sends a batch in which the reference to the second is listed with the first |
| Collisions.TrainerCollisionExample | external_parser/joiners/example_joiner.cc:409-438 | for any two objects with one hash: a run that sends each in a batch of its own and correctly listed, and a trainer that reads the second as the first, which it still has cached |
| Collisions.SendOne | rlclientlib/logger/async_batcher.h:157-185 | whenever nothing is under way, any event can be transformed, batched and sent, and then nothing is under way again |
| Collisions.RestIsEmpty | rlclientlib/dedup.cc:37-49 | when nothing is under way and nothing was lost the dictionary is empty |
| BatchDelivery.BatchMessageRead | external_parser/joiners/example_joiner.cc:326-332 | the message of a sent batch, dictionary first: all its contexts, and those left waiting before, are joined with the cache after its dictionary, which knows every reference, correctly under the same exact condition |
| BatchDelivery.MessageContexts | external_parser/joiners/example_joiner.cc:318-343 | for a library that reads a context exactly when the objects it refers to are cached: a group joined by a message comes to nothing if and only if each of its interactions of the configured kind and mode refers to an object not cached after the dictionaries of the message |
| BatchDelivery.BatchContextRead | external_parser/joiners/example_joiner.cc:326-332 | in the message of a sent batch an interaction of the configured kind and mode with an edited payload for its context is read, whatever was cached before |
| BatchDelivery.LogReplays | external_parser/joiners/example_joiner.cc:100-110 | whatever else a log holds, refused events and cut-short messages included, the cache is that of its processed dictionaries in order |
| BatchDelivery.BatchAfterLog | external_parser/joiners/example_joiner.cc:388-449 | after any log of the client's dictionaries the next batch's references reach their objects, when no two objects cut so far share a hash |
| DedupContents.ReferenceResolvesIff | rlclientlib/dedup.cc:28-35 | for any hash, in any run: a sent batch lists a reference with the object it replaced if and only if no other content stood under its hash, in the dictionary or earlier in the payload, when the event was transformed |
| DedupContents.SentContents | rlclientlib/dedup.cc:198-209 | for any hash, in any run: each reference of a sent batch is listed once, with the content that stood under it right after the transformation |
| DedupContents.EveryRunRemembers | rlclientlib/dedup.cc:37-49 | while an event is queued or in a batch not yet returned, the dictionary answers its ids with the same contents, whatever the other threads do |
| DedupContents.AddAllAnswers | rlclientlib/dedup.cc:28-56 | after additions get_object answers an id with the content that was there or else with the first added object of that hash |
| DedupSafety.CountsConserved | rlclientlib/dedup.cc:28-49 | in every state of every run the count of an id is its occurrences in queued events, in live or abandoned batches and in dropped events; there is an entry exactly while that is positive; no error is ever met |
| DedupSafety.ClampNeverActs | rlclientlib/dedup.cc:37-49 | a finished batch never gives back more references than there are, so the minimum taken in remove_object changes nothing |
| DedupSafety.ViewsStayValid | rlclientlib/dedup.cc:205-209 | between the two lock regions of finalize, whatever the other threads do, every listed entry stays with the content it had, and the dictionary event is written from that content |
| DedupContents.SentReferencesResolve | rlclientlib/dedup.cc:240-255 | in particular every reference is listed with its object when no two objects cut so far share a hash |
| DedupSafety.EveryRunIsSound | rlclientlib/dedup.cc:160-224 | the invariant of the whole protocol holds in every state of every run |
| DedupSafety.StepTransform | rlclientlib/dedup.cc:160-171 | a transformation keeps it: counts grow by the new references, other batches' entries and estimates stay |
| DedupSafety.StepDrop | rlclientlib/generic_event.h:79-87 | an event whose payload fails to compress is lost with its objects already added: their references stay claimed for good |
| DedupSafety.StepOpen | rlclientlib/logger/async_batcher.h:150-156 | a new batch holds nothing |
| DedupSafety.StepBeginAdd | rlclientlib/logger/async_batcher.h:167-171 | a transformed event handed to a batch takes its references with it |
| DedupSafety.TakeSucceeds | rlclientlib/dedup.cc:175-194 | the key of a reference being added is always found |
| DedupSafety.StepTakeId | rlclientlib/dedup.cc:175-194 | taking one id keeps the invariant, the size estimate included |
| DedupSafety.StepFinishAdd | rlclientlib/dedup.cc:240-244 | an added event has all its ids in the tally |
| DedupSafety.StepAbandon | rlclientlib/logger/async_batcher.h:165-171 | a batch given up keeps its references for good |
| DedupSafety.StepFinalizeRead | rlclientlib/dedup_internals.h:128-146 | listing the contents meets no missing key |
| DedupSafety.StepSerialize | rlclientlib/dedup.cc:205-206 | the views are read while their entries are there |
| DedupSafety.StepFinalizeRemove | rlclientlib/dedup_internals.h:148-161 | giving the references back neither misses a key nor touches what another batch holds, and happens whether or not the batch can then be compressed and sent |
| DedupSafety.OthersSurvive | rlclientlib/dedup_internals.h:148-161 | what another live batch uses outlives a batch that is sent, content and all |
| DedupState.TakeKeepsSize | rlclientlib/dedup.cc:175-194 | the size estimate is the sum of 8 plus the content length over the distinct ids, whatever the number of uses |
| DedupState.SizeExample | rlclientlib/dedup.cc:188-191 | an object of three characters adds 11 to the estimate, once |
| DedupState.RemoveAllStep | rlclientlib/dedup_internals.h:148-161 | removing used objects one by one, in any order, is removing them at once |
| DedupState.DedupState.GetAllValues | rlclientlib/dedup_internals.h:128-146 | succeeds exactly when all used objects have content, and then lists each once with it |
| DedupState.DedupState.RemoveAllValues | rlclientlib/dedup_internals.h:148-161 | succeeds exactly when all used objects are there, and then removes all their references; otherwise some subset of them is removed |
| DedupState.DedupState.TransformPayloadAndAddObjects | rlclientlib/dedup.cc:160-171 | without deduplication the payload passes unchanged; with it the dictionary's transformation applies |
| DedupState.ActionDictBuilder.AddOne | rlclientlib/dedup.cc:177-191 | one id taken, or false with nothing changed |
| DedupState.ActionDictBuilder.Add | rlclientlib/dedup.cc:175-194 | succeeds exactly when no id is missing, and otherwise stops at the first missing one with the ids before it taken |
| DedupState.ActionDictBuilder.Finalize | rlclientlib/dedup.cc:198-223 | the dictionary event lists the used objects with their contents, and their references are given back, even when its compression then fails and whatever the other threads made of the dictionary between the two lock regions |
| DedupDict.AddAllCounts | rlclientlib/dedup.cc:28-35 | adding objects raises each count by the number of its occurrences |
| DedupDict.AddAllContents | rlclientlib/dedup.cc:28-35 | contents once there stay, and a new entry holds one of the objects under its hash |
| DedupDict.DedupDict.AddObject | rlclientlib/dedup.cc:28-35 | the id is the hash; the count starts at one or grows by one; an old content is kept |
| DedupDict.DedupDict.RemoveObject | rlclientlib/dedup.cc:37-49 | true when the count asked is zero or the object is there; the entry goes when its references do |
| DedupDict.DedupDict.ReplaceSpans | rlclientlib/dedup.cc:64-82 | the edit loop, its unsigned 64-bit offset wrapping, yields the payload with each span replaced by its reference, the ids in order, and the dictionary with all objects added |
| DedupDict.DedupDict.TransformPayloadAndAddObjects | rlclientlib/dedup.cc:58-83 | a payload that does not parse changes nothing; otherwise as the edit loop |
| DedupDict.EditStep | rlclientlib/dedup.cc:69-80 | whatever the offset wrapped to, the edit lands on the next span of the edited text |
| DedupDict.TokenExample | rlclientlib/dedup.cc:73-75 | the reference to object 1042, letter by letter |
| Expansion.Respliced | rlclientlib/dedup.cc:69-80 | splicing other texts over the replacements is splicing them into the original |
| Expansion.ReferencesRestored | rlclientlib/dedup.cc:58-83 | writing the objects back over their references restores any payload |
| Expansion.ReferenceAtToken | rlclientlib/dedup.cc:73-76 | a written reference reads back as its id, all digits of it |
| LruDedupCache.LruDedupCache.Add | external_parser/lru_dedup_cache.cc:3-8 | the new id comes first in the list and the maps, and the three structures agree |
| LruDedupCache.LruDedupCache.Update | external_parser/lru_dedup_cache.cc:10-17 | the id moves to the front, nothing else changes, and the structures agree |
| LruDedupCache.LruDedupCache.ClearAfter | external_parser/lru_dedup_cache.cc:19-35 | the list is cut after the given id, the rest leaves both maps, and their examples are released in list order |
| LruDedupCache.LruDedupCache.EraseFrom | external_parser/lru_dedup_cache.cc:26-33 | the loop forgets exactly the ids of the remaining nodes |
| LruDedupCache.LruDedupCache.Clear | external_parser/lru_dedup_cache.cc:37-43 | everything goes, and each example is released once |
| LruDedupCache.LruDedupCache.Exists | external_parser/lru_dedup_cache.cc:45 | a look at the map of examples answers whether the id is in the list |
| LruDedupCache.LinkedErase | external_parser/lru_dedup_cache.cc:13-14 | erasing the node an iterator denotes keeps every other iterator on its own node |
| DedupReplay.ProcessDedupLeaves | external_parser/joiners/example_joiner.cc:406-446 | for any payload and any earlier cache, a success leaves the ids from the last use of the payload's first id on, in order of last use |
| DedupReplay.ProcessDedupReplaces | external_parser/lru_dedup_cache.h:8-16 | with unique ids the list is the payload reversed and the cache is the payload |
| DedupReplay.ProcessDedupKeepsAllIff | external_parser/lru_dedup_cache.h:16 | with repeated ids the payload survives whole if and only if every id occurs at or after the last occurrence of the first one |
| DedupReplay.EmptyPayloadKeepsCache | external_parser/joiners/example_joiner.cc:441-446 | an empty dictionary event evicts nothing |
| DedupReplay.ProcessDedupSound | external_parser/joiners/example_joiner.cc:388-449 | whatever the payload, the cache lists its ids once and no example is held twice, in the cache, in the pool or across them |
| DedupReplay.ProcessedIff | external_parser/joiners/example_joiner.cc:388-449 | a dictionary event gets through if and only if it decodes, its ids and values pair up and every value parses, but for those whose id is cached or earlier in it |
| DedupReplay.ReturnedIsNext | external_parser/joiners/example_joiner.cc:52-73 | the example returned last is the next one used |
| DedupReplay.RepeatedIdLost | external_parser/lru_dedup_cache.h:16 | the ids 1, 2, 1 leave the cache with 1 alone |
| DedupReplay.ProcessDedupLoses | external_parser/joiners/example_joiner.cc:406-446 | a call adds to the examples lost, those in neither cache nor pool, exactly the ones its parser draws for itself and the ones of values that do not parse; eviction loses none |
| DedupReplay.WasteAllIff | external_parser/joiners/example_joiner.cc:406-439 | an event loses no example if and only if each of its values parses into its one example, but for those whose id is cached or earlier in the event, which are not read; and then it gets through |
| DedupReplay.OwnershipIff | external_parser/joiners/example_joiner.cc:52-80 | over any run of dictionary events cache and pool never share an example, and every example ever created is in one of them if and only if every event reads clean, in terms of the ids and values of the run alone: each value parses into its one example unless its id is earlier in its event or among those the events before it leave cached |
| DedupReplay.ExampleLostExample | external_parser/joiners/example_joiner.cc:411-436 | one value that parses into two examples: the event gets through and the second example is in neither cache nor pool |
| DedupReplay.CleanRunOwns | external_parser/joiners/example_joiner.cc:52-80 | over any run in which every value parses into its one example, every example created is in exactly one of cache and pool |
| DedupReplay.CleanReadsLoseNothing | external_parser/joiners/example_joiner.cc:411-436 | when every value parses into its one example nothing is lost and the call gets through |
| DedupReplay.ClearReturnsAll | external_parser/joiners/example_joiner.cc:44-50 | the destructor's clear puts every cached example into the pool |
| DedupReplay.ProcessDedupTexts | external_parser/joiners/example_joiner.cc:406-439 | examples stay true to their ids when the payload is |
| ExampleJoiner.EventStepSound | external_parser/joiners/example_joiner.cc:82-126 | every event, refused or not, leaves a sound state |
| ExampleJoiner.JoinedStepSound | external_parser/joiners/example_joiner.cc:451-544 | every join takes exactly one group out of the queue |
| ExampleJoiner.ExampleJoiner.GetOrCreateExample | external_parser/joiners/example_joiner.cc:52-71 | the last pooled example, or a new one |
| ExampleJoiner.ExampleJoiner.UseDedup | external_parser/joiners/example_joiner.cc:408-438 | one id of a dictionary event: refreshed if cached, else parsed and added, else a failure that loses its examples |
| ExampleJoiner.ExampleJoiner.ProcessDedup | external_parser/joiners/example_joiner.cc:388-449 | the whole call is the function ProcessDedup whose properties are above |
| ExampleJoiner.ExampleJoiner.ProcessEvent | external_parser/joiners/example_joiner.cc:82-126 | a bad dictionary clears the batch; malformed and episode events are refused; others join the group of their id |
| ExampleJoiner.ExampleJoiner.ProcessOutcome | external_parser/joiners/example_joiner.cc:350-386 | appended to the interaction joined already, if any; invalidating it if it does not decode |
| ExampleJoiner.ExampleJoiner.ProcessInteraction | external_parser/joiners/example_joiner.cc:222-348 | accepted when its kind, mode, payload and context all are; kept only if it is the first |
| ExampleJoiner.ExampleJoiner.ProcessJoined | external_parser/joiners/example_joiner.cc:451-556 | the front group is joined and scored, its result given, and it leaves the queue and the maps whatever the result |
| LogCalls.CallGives | external_parser/parse_example_binary.cc:287-305 | a call of parse_examples, on any bytes and in any state, returns true exactly when the last group it joined is learned, and no other group it joined is |
| LogCalls.RunGives | external_parser/parse_example_binary.cc:336-387 | reading a log to its end, the learned results are as many as the calls that return true, each giving one |
| LogCalls.JoinGives | external_parser/joiners/example_joiner.cc:451-556 | a join gives one result, answers whether it is learned, and leaves the skip flag set exactly when it is skipped |
| ExampleJoiner.ExampleJoiner.CalcReward | external_parser/event_processors/joined_event.h:514-517 | the rewards of a bandit, slotted or other event, Apprentice mode included, are those of Score, which the EventJoin lemmas relate to the reward functions |
| EventJoin.GroupResult | external_parser/joiners/example_joiner.cc:514-556 | by the events after the first accepted interaction: invalidated exactly when one does not decode, skipped exactly when deferred and never activated, else learned when the library fills in its label and unlabelled when not; what is learned is that interaction, its flag cleared, with those outcomes, their slots resolved, and the configured reward function on them, slot by slot where there are slots, or the rewards of imitation in Apprentice mode; the contexts read are those of all accepted interactions, the learned one's alone exactly when there is no second |
| EventJoin.NoInteractionIff | external_parser/joiners/example_joiner.cc:514-523 | a group comes to nothing exactly when none of its interactions is accepted |
| EventJoinLaws.NothingIffUncached | external_parser/joiners/example_joiner.cc:318-343 | with such a library, and any cache: a group comes to nothing exactly when each interaction of the configured kind and mode refers to an object that is not cached |
| EventJoinLaws.ForeignInteractionRemoved | external_parser/joiners/example_joiner.cc:225-316 | an interaction of another kind or learning mode, or that does not decode, can be taken out of its group without changing the result |
| EventJoinLaws.ClientTimesIgnored | external_parser/event_processors/timestamp_helper.cc:24-39 | by default changing the client times of a group changes nothing |
| EventJoinLaws.EnqueuedTimesIgnored | external_parser/event_processors/timestamp_helper.cc:24-39 | when client times are asked for, and every outcome has one, changing the times of enqueueing changes nothing |
| EventJoinLaws.FirstEnqueuedWins | external_parser/joiners/example_joiner.cc:464-468 | under earliest and by default the learned reward is the one enqueued first |
| EventJoinLaws.FirstByClientWins | external_parser/joiners/example_joiner.cc:464-468 | under earliest and with client times it is the one the clients put first |
| EventJoin.LearnedTotal | external_parser/event_processors/joined_event.h:295-300 | with the sum function and default 0, the rewards a slotted event learned add up to its outcomes that resolve to a slot |
| ExampleJoiner.ExampleJoiner.ClearEventIdBatchInfo | external_parser/joiners/example_joiner.cc:202-207 | the id leaves both maps, and the queue if it is in front |
| ExampleJoiner.ExampleJoiner.ApplyCheckpoint | external_parser/parse_example_binary.cc:206-213 | a locked setting stays, every other takes the checkpoint's value, and an unknown reward function changes nothing |
| ExampleJoiner.LastCheckpointHolds | external_parser/event_processors/loop.h:20-28 | after any series of checkpoints the settings are those of the last, locked ones excepted, with the last reward function that was known |
| ExampleJoiner.ReadyIffCheckpoint | external_parser/joiners/example_joiner.cc:148 | the joiner is ready from the first checkpoint on, and not before |
| ExampleJoiner.UnnamedRewardIsEarliest | external_parser/joiners/example_joiner.cc:38-42 | checkpoints that name no known reward function leave earliest |
| ExampleJoiner.ExampleJoiner.ReturnCachedExamples | external_parser/joiners/example_joiner.cc:44-48 | the cache is emptied into the pool and no example is lost |
| EventJoin.JoinMeaning | external_parser/joiners/example_joiner.cc:345-384 | the first accepted interaction is kept, outcomes before it are ignored, later ones appended in order, and a later one that does not decode invalidates it |
| EventJoin.JoinNothing | external_parser/joiners/example_joiner.cc:379-383 | without an accepted interaction nothing is joined |
| EventJoin.BatchResults | external_parser/joiners/example_joiner.cc:116-124 | draining gives one result, rewards included, per id, in order of first appearance, each a function of that id's events alone |
| EventJoin.InterleavingIrrelevant | external_parser/joiners/example_joiner.cc:451-474 | two interleavings of the same per-id sequences have the same ids and results; only the order of first appearance can differ |
| EventJoin.GroupAllMeaning | external_parser/joiners/example_joiner.cc:116-124 | grouping keeps each id's events in order and queues ids by first appearance |
| Framing.FileDelivered | external_parser/parse_example_binary.cc:336-387 | for any sequence of well-formed messages, calling parse_examples until it returns false gives the joiner every message in file order, across any number of calls, consumes the file and counts all its bytes and four more |
| Framing.PayloadsDelivered | external_parser/parse_example_binary.cc:181-285 | a recording joiner receives exactly the checkpoint payloads and the regular payloads after the first of them, in file order; unknown messages and headers are skipped |
| Framing.FileStops | external_parser/parse_example_binary.cc:336-387 | a file that goes on with a wrong version, an end-of-file type or a message cut short delivers the messages before and nothing behind, with an exact byte count |
| Framing.RunAllDrains | external_parser/parse_example_binary.cc:287-305 | a batch drained over several calls is a batch drained at once |
| Framing.MessageReads | external_parser/parse_example_binary.cc:341-384 | each message is read whole and has the effect it should, the padding left for the next read |
| Framing.CallAccounts | external_parser/parse_example_binary.cc:307-332 | on every byte string a call leaves a suffix of its input; one that delivers has counted exactly the bytes read, with or without bytes left; one that does not is behind by exactly what was cut short and four ahead at an inferred end of file |
| Framing.BoundariesExact | external_parser/parse_example_binary.cc:341-386 | at every message boundary inside a call the count is exact, except after a regular message cut short by the end of the bytes, where it lacks what was cut |
| Framing.AlignedIff | external_parser/parse_example_binary.cc:68-78 | the padding aligns a message to 8 bytes, as external_parser/README.md asks, if and only if the payload size is a multiple of 4 |
| Framing.UnalignedExample | external_parser/parse_example_binary.cc:68-78 | a payload of one byte is not aligned |
| Framing.VersionAcceptedIff | external_parser/parse_example_binary.cc:107-115 | the version check accepts exactly the numbers whose low byte is 1, not only 1 |
| Framing.WrongVersionExample | external_parser/parse_example_binary.cc:107-115 | version 257 is accepted |
| BinaryParser.BytesOfU32 | external_parser/parse_example_binary.cc:48-56 | a number written in four bytes reads back |
| BinaryParser.TypeBytes | external_parser/parse_example_binary.h:12-16 | the bytes of the message types in a file, the magic as VWFB |
| BinaryParser.ParseCall | external_parser/parse_example_binary.cc:336-387 | a call that returns true consumes bytes or shortens the pending batch, so calling until false ends |
| BinaryParser.ProcessNext | external_parser/parse_example_binary.cc:287-305 | a join that succeeds leaves fewer pending; without one nothing is pending |
| BinaryParser.Messages | external_parser/parse_example_binary.cc:341-386 | the message loop ends on every byte string, and returns true only after consuming bytes |
| BinaryParser.BinaryParser.AdvanceToNextPayloadType | external_parser/parse_example_binary.cc:307-332 | padding and type read, or the end of file inferred from an empty rest |
| BinaryParser.BinaryParser.ReadVersion | external_parser/parse_example_binary.cc:93-117 | four bytes read and the padding size reset |
| BinaryParser.BinaryParser.ReadSizedPayload | external_parser/parse_example_binary.cc:123-147 | size and payload read, or all that is left when short |
| BinaryParser.BinaryParser.ProcessRegularPayload | external_parser/parse_example_binary.cc:246-284 | ignored before the joiner is ready; dropped when it does not verify; cut short by a refused event; else joined |
| BinaryParser.BinaryParser.ProcessNextInBatch | external_parser/parse_example_binary.cc:287-305 | joins until one succeeds or none is left |
| BinaryParser.BinaryParser.ParseExamples | external_parser/parse_example_binary.cc:336-387 | the whole call is the function ParseCall whose properties are above |
| LogReader.OpsLawful | external_parser/parse_example_binary.cc:287-305 | with the example joiner behind it the parser's loops end |
| LogReader.RegularMessageJoined | external_parser/parse_example_binary.cc:266-284 | a regular message of accepted events processes its dictionaries first, and then joins its groups and all that were waiting under the settings and cache of now |
| LogReader.WaitingGroupsJoin | external_parser/parse_example_binary.cc:266-284 | the events left waiting by a message cut short and those of the next one read whole give the results of one batch |
| LogReader.RefusedEventLeavesGroups | external_parser/parse_example_binary.cc:268-280 | a refused event cuts its message short and leaves the earlier groups queued |
| LogReader.BadDictionaryDiscards | external_parser/joiners/example_joiner.cc:100-110 | a dictionary event that does not process discards all that was grouped, in its message and before |
| LogReader.LogRead | external_parser/parse_example_binary.cc:336-387 | the results of a whole file, over any number of calls, in closed form: message by message, each read whole joining what waits with its own events, each cut short leaving them waiting, a bad dictionary discarding them |
| Rewards.PermutationInvariantIff | external_parser/event_processors/reward.h:26-120 | permuting the outcomes changes no reward but that of earliest, and that if and only if the outcomes of the least time differ in value |
| Rewards.EarliestTieExample | external_parser/event_processors/reward.h:105-120 | with such a tie earliest keeps the outcome listed first |
| Rewards.RewardUnique | external_parser/event_processors/reward.h:26-120 | each function has exactly one reward for given outcomes |
| Rewards.OnlyActivations | external_parser/event_processors/reward.h:26-120 | with nothing but activations every function gives the default |
| Rewards.RewardsOrdered | external_parser/event_processors/reward.h:26-103 | min <= median <= max and min <= average <= max once some value is below the float maximum and some above the smallest positive float |
| Rewards.MaxIsGreatestIff | external_parser/event_processors/reward.h:71-80 | max is the greatest value if and only if that exceeds the smallest positive float or equals the default |
| Rewards.MaxLosesNegativeExample | external_parser/event_processors/reward.h:71-80 | of a single reward of -1 max gives the default 0 |
| Rewards.MinIsLeastIff | external_parser/event_processors/reward.h:60-69 | min is the least value if and only if that is below the float maximum or equals the default |
| Rewards.MinLosesGreatestExample | external_parser/event_processors/reward.h:60-69 | of a single reward of the float maximum min gives the default |
| Rewards.AverageReward | external_parser/event_processors/reward.h:26-41 | the mean of the values, or the default |
| Rewards.SumReward | external_parser/event_processors/reward.h:43-58 | the sum of the values, or the default |
| Rewards.MinReward | external_parser/event_processors/reward.h:60-69 | the least value when one is below the float maximum, else the default |
| Rewards.MaxReward | external_parser/event_processors/reward.h:71-80 | the greatest value when one is above the smallest positive float, else the default |
| Rewards.MedianReward | external_parser/event_processors/reward.h:82-103 | the middle of the sorted values, or the mean of the two middle ones, or the default |
| Rewards.EarliestReward | external_parser/event_processors/reward.h:105-120 | the value of the first-listed outcome of least time below the sentinel, or the default |
| Rewards.SortedUnique | external_parser/event_processors/reward.h:94 | there is one sorted arrangement of given values |
| Rewards.MedianIsMiddle | external_parser/event_processors/reward.h:82-103 | at most half of the values lie below the median and at most half above, and mirrored values have the mirrored median |
| Rewards.AverageTimesCount | external_parser/event_processors/reward.h:26-58 | the average times the number of values is the sum |
| Rewards.FloatLimits | external_parser/event_processors/reward.h:62-73 | the sentinels of min and max are 2^128 - 2^104 and 2^-126 |
| CcbEvent.CcbJoinedEvent.CalcCost | external_parser/event_processors/joined_event.h:225-283 | unless Apprentice sizes mismatch, each slot's original reward is the reward function on the outcomes that resolve to it in arrival order; otherwise nothing changes |
| CcbEvent.CcbJoinedEvent.ResolveSlots | external_parser/event_processors/joined_event.h:241-258 | literal ids known to the interaction become positions, others stay |
| CcbEvent.NamesAreNumbers | external_parser/event_processors/joined_event.h:241-258 | naming a slot by a literal id the interaction knows scores every slot as naming it by its position does |
| CcbEvent.NumbersNeedNoIds | external_parser/event_processors/joined_event.h:245 | outcomes that are not literal, or have no literal, score the same whatever ids the interaction has |
| CcbEvent.LiteralAdds | external_parser/event_processors/joined_event.h:241-278 | with the sum function and default 0 a literal outcome adds its value to the slot it names and to no other |
| CcbEvent.CcbJoinedEvent.GroupBySlot | external_parser/event_processors/joined_event.h:260-268 | every outcome with an index other than -1 is appended to that index's list |
| CcbEvent.CcbJoinedEvent.ScoreSlots | external_parser/event_processors/joined_event.h:271-279 | each slot is scored from its own list, the default when there is none |
| CcbEvent.CcbJoinedEvent.SetApprenticeReward | external_parser/event_processors/joined_event.h:166-179 | one where the first action is the baseline's, else zero |
| CcbEvent.CcbJoinedEvent.GetSumOriginalReward | external_parser/event_processors/joined_event.h:295-300 | the sum over the slots |
| CcbEvent.AtSlotElements | external_parser/event_processors/joined_event.h:260-268 | an outcome is listed for the slot it names, as often as it arrived, and for no other |
| CcbEvent.SumAttribution | external_parser/event_processors/joined_event.h:271-279 | with the sum reward the slots' total is every resolved non-activation outcome once, plus the default for each slot no outcome speaks for |
| CcbEvent.ScoreFreshEvent | external_parser/event_processors/joined_event.h:514-521 | scoring a fresh event with sum and default 0 and adding up its slots gives the sum of the outcomes that resolve to a slot |
| Calendar.FromToDays | ext_libs/date/date.h:3084-3103 | from_days(to_days(d)) is d for every valid date |
| Calendar.ToFromDays | ext_libs/date/date.h:2970-2987 | to_days(from_days(n)) is n, and the date valid, for every day number of years -32767 to 32767 |
| Calendar.NextIsOneMore | ext_libs/date/date.h:2734-2748 | the next date of the day-by-day calendar has the next number |
| Calendar.EpochIsZero | ext_libs/date/date.h:2970-2987 | 1970-01-01 is day 0, both ways |
| Calendar.ClosedFormCountsDays | ext_libs/date/date.h:3084-3103 | from_days counts days one step of the calendar at a time over the whole range, before the epoch and after it, with the epoch at 0 |
| Calendar.Monotone | ext_libs/date/date.h:3029-3039 | date order is day-number order, in both directions, and equal numbers are equal dates |
| Calendar.ToDaysShape | ext_libs/date/date.h:2979-2986 | for every day a byte can hold, valid or not, the unsigned arithmetic counts on from the first of the month |
| Calendar.YearOfEra | ext_libs/date/date.h:3094 | the year of the era is recovered from every day of it |
| CalendarArithmetic.WeekdayFromDaysIsEuclidean | ext_libs/date/date.h:1820-1827 | the weekday of any 32-bit day number is (z + 4) modulo 7 |
| CalendarArithmetic.WeekdayFollowsDays | ext_libs/date/date.h:1912-1920 | adding n days to a day number advances its weekday by n |
| CalendarArithmetic.WeekdayDifference | ext_libs/date/date.h:1902-1910 | x - y is the one number from 0 to 6 that leads from y to x |
| CalendarArithmetic.MonthDifference | ext_libs/date/date.h:1614-1631 | x - y is the one number from 0 to 11 that leads from y to x |
| CalendarArithmetic.YearMonthDifference | ext_libs/date/date.h:2304-2311 | x - y is the one number of months that leads from y to x |
| CalendarArithmetic.YearMonthAction | ext_libs/date/date.h:2274-2284 | adding months twice is adding their sum, years that wrap at 16 bits included |
| Timestamps.TimestampRoundTrip | rlclientlib/time_helper.cc:25-48 | a timestamp survives the clock and back if and only if it is well formed |
| Timestamps.ChronoRoundTrip | rlclientlib/time_helper.cc:25-48 | a clock value comes back floored to 100 ns, and its timestamp is well formed |
| Timestamps.OrderAgrees | rlclientlib/time_helper.h:32-42 | timestamp order is clock order, and equality equality |
| Timestamps.ClockDigits | ext_libs/date/date.h:4082-4087 | hours, minutes, seconds and tenths of microseconds are recovered from the nanoseconds of the day |
| KeywordScanner.ScanKeyword | ext_libs/date/date.h:4933-5035 | consumes exactly as much text as some keyword follows, case aside, and returns the first keyword equal to what was consumed, or fails when there is none; a fresh stream is left at end of file exactly when all of it is consumed and some keyword goes on |
| KeywordScanner.FoundIffNoOvershoot | ext_libs/date/date.h:5001-5024 | a longest keyword the text begins with is found if and only if no keyword follows the text beyond it |
| KeywordScanner.MatchIsLongestPrefix | ext_libs/date/date.h:5026-5034 | a match is a longest keyword the text begins with |
| KeywordScanner.OvershootExample | ext_libs/date/date.h:4980-5024 | "ab" begins "abce", but "abcd" leads the scan past it |
| KeywordScanner.UpperIff | ext_libs/date/date.h:4976-4990 | characters are taken for the same exactly when they are, or are the two cases of one letter |
| KeywordScanner.AgreeIff | ext_libs/date/date.h:4984-5003 | a keyword follows a text as far as their characters are the same, case of letters aside, and no further |
| KeywordScanner.CaseDoesNotMatter | ext_libs/date/date.h:4933-5035 | changing the case of letters, in the text or the keywords, changes neither the number of characters consumed nor the keyword returned |
| KeywordScanner.LowerCaseExample | ext_libs/date/date.h:4976-4990 | the keyword "Jan" is found on "jan" |
| KeywordScanner.LongestUnique | ext_libs/date/date.h:4967-5025 | the number of characters consumed is determined by the keywords and the text |
| KeywordScanner.InitStatus | ext_libs/date/date.h:4950-4965 | both counters are right at the start |
| KeywordScanner.TestCharacter | ext_libs/date/date.h:4984-5003 | after each tested character both counters equal the numbers of keywords in their status |
| KeywordScanner.DropStale | ext_libs/date/date.h:5005-5023 | the guard on the counters never skips a keyword that has become stale |

## Left out

- DedupDict.DedupDict.AddObject: reference counts are unbounded; the wrap of a 64-bit count is not modelled.
- DedupDict.DedupDict.ReplaceSpans: asks that the edited text be shorter than 2^64 characters, which memory enforces.
- Rewards.MedianReward: sorts by a function that yields the sorted arrangement; std::sort's own steps are not modelled, and rounding is not, in any reward function.
- BinaryParser.BinaryParser.ParseExamples: the byte counter is unbounded; the log messages are left out.
- LruDedupCache.LruDedupCache.Update: the linked list is a sequence of nodes with lasting identities, not cells linked by pointers; a call with an id that is not cached, undefined in the code, is excluded.
- ExampleJoiner.ExampleJoiner.ProcessJoined: metrics, JSON output, the end-of-multiline example and the clearing of the caller's examples are left out; so are examples half read when a context throws.
- ExampleJoiner.ExampleJoiner.ProcessInteraction: of a decision only what scoring looks at is kept; probabilities go to the library's label filling, which is a predicate.
- ExampleJoiner.ExampleJoiner.UseDedup: example objects are numbers, and what an example was parsed from is a ghost record; features are not modelled.
- Expansion.Expand: a left-to-right reader of references is the model's own, standing for the JSON reader of the VW library, which is not part of this model; that it restores a payload whose own text spells no reference is a sufficient condition only.
- EndToEnd.EventsReadAsWritten: the joiner restores no text; the reading back is by functions of the model, and says what the edited text and the trainer's texts together determine.
- LogReader.WaitingGroupsJoin: events that wait are kept as values; in the code they are pointers into the buffer of the message they came in, and how long that buffer lasts is not modelled.
- KeywordScanner.ScanKeyword: upper case is that of the C locale; an allocation failure for more than 100 keywords is not modelled.
- Timestamps.TimestampRoundTrip: clock values whose midnight does not fit in 64 bits of nanoseconds, where the code overflows, are excluded.
- CalendarArithmetic.YearMonthAction: sums of months that overflow an int, or would with the 11 subtracted from a negative one, undefined in the code, are excluded.
- DedupProtocol: transformed events are taken in any order and by any batch, of which the batcher's own order, to transform an event and add it at once, is a case; events that pruning discards before their transformation do not appear. That the references of an event lost after it, and of an abandoned batch, are never given back is modelled as it is.
- The compression ratio estimate and the batch size it scales: floating point, updated without a lock by design.
- zstd, flatbuffers, JSON parsing, senders, configuration, live model, Python bindings: plumbing or library code.
- The multistep joiner, the log converter and locale-dependent formatting of dates.
