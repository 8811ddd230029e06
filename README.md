# Bedrock multi-write conflict metrics, in Dafny

This project models `BedrockConflictMetrics`, the part of Bedrock that decides
whether a command may run as a multi-write (concurrent) transaction. The
decision depends on how often that command recently hit replication conflicts.

- **Per-command tracker** (`ConflictTracker.Tracker`, file `tracker.dfy`).
  - A circular bit set of COMMAND_COUNT slots, where a set bit is a conflict. It is an `array<bool>`.
  - A cursor into the bit set.
  - Lifetime success and conflict totals.
  - The last verdict, `_lastCheckOK`.
  - `success()` and `conflict()` overwrite the slot at the cursor, bump one total and advance the cursor modulo COMMAND_COUNT.
  - The recent counts are read from the bit set.
  - A ghost `history` holds every outcome ever recorded. The representation invariant `Reflects` ties the fields to it. Read from the cursor, the bit set lists the last COMMAND_COUNT outcomes, slots never written read as successes, and the totals count all of `history`.
- **Registry** (`ConflictRegistry.Registry`, file `registry.dfy`). This is the map `_conflictInfoMap` from command name to tracker, with three operations:
  - `recordConflict` and `recordSuccess` find or create the tracker, then record on it.
  - `multiWriteOK` never creates an entry. It allows an unknown name. A known name is allowed exactly when its recent conflict count is strictly below THRESHOLD, and the verdict is stored in that tracker.
- **Value-level specification.** Each stateful operation is proved against a pure function on values:
  - the tracker's fields as a `Metrics` value, with `Record` for one recorded outcome;
  - the map as a `Table`, with `RecordOutcome` and `Query`.
  - Lemmas over those functions, together with a call log (`Event`, `Outcomes`, `Consistent`), state what the verdict means in terms of the calls made.
- **Windows and counts** (module `RecentWindow`, file `window.dfy`): sequences of outcomes, the zero-padded window of the last `n`, the rotated view of a circular buffer, and the population count.

COMMAND_COUNT, THRESHOLD and the initial `_lastCheckOK` come from a header that
is not part of this model. They are parameters of the `Registry` constructor. The
cursor starts at 0 and the bit set starts all clear.

## Model

| member | source | states |
|---|---|---|
| ConflictTracker.Tracker.constructor | BedrockConflictMetrics.cpp:7-9 | a new tracker is named after its command, has COMMAND_COUNT clear slots, cursor and totals at zero, and has recorded nothing (`Faithful` with empty history) |
| ConflictTracker.Tracker.Success | BedrockConflictMetrics.cpp:11-16 | the slot at the old cursor becomes clear and every other slot is unchanged; the success total grows by one and the conflict total is unchanged; the cursor becomes (old + 1) mod COMMAND_COUNT; history gains a success and the representation invariant is preserved |
| ConflictTracker.Tracker.Conflict | BedrockConflictMetrics.cpp:18-23 | the slot at the old cursor becomes set and every other slot is unchanged; the conflict total grows by one and the success total is unchanged; the cursor advances the same way; history gains a conflict and the invariant is preserved |
| ConflictTracker.Tracker.RecentConflictCount | BedrockConflictMetrics.cpp:29-31 | the result is the population count of the bit set, at most COMMAND_COUNT, and equals the number of conflicts among the last min(COMMAND_COUNT, outcomes recorded) outcomes |
| ConflictTracker.Tracker.RecentSuccessCount | BedrockConflictMetrics.cpp:25-27 | the result plus the recent conflict count is COMMAND_COUNT, it is not negative, and slots never written count as successes |
| ConflictTracker.Tracker.TotalSuccessCount | BedrockConflictMetrics.cpp:33-35 | the number of successes among all outcomes ever recorded |
| ConflictTracker.Tracker.TotalConflictCount | BedrockConflictMetrics.cpp:37-39 | the number of conflicts among all outcomes ever recorded |
| ConflictTracker.Fresh | BedrockConflictMetrics.cpp:7-9 | the initial tracker value is well formed, holds no conflict and has zero totals |
| ConflictTracker.FreshReflects | BedrockConflictMetrics.cpp:7-9 | the initial tracker value reflects the empty history |
| ConflictTracker.Record | BedrockConflictMetrics.cpp:11-23 | recording keeps the window size and the cursor in range, changes the population count by the difference of the new and overwritten bits, adds one to the totals together and keeps the last verdict |
| ConflictTracker.RecordReflects | BedrockConflictMetrics.cpp:11-23 | recording outcome b on a tracker that reflects history h yields one that reflects h + [b] |
| ConflictTracker.Replay | BedrockConflictMetrics.cpp:11-23 | any sequence of success/conflict calls on a fresh tracker produces a state that reflects exactly that sequence |
| ConflictTracker.RecentConflicts | BedrockConflictMetrics.cpp:29-31 | the population count equals the number of conflicts among the last min(COMMAND_COUNT, recorded) outcomes |
| ConflictTracker.ForgetsOlder | BedrockConflictMetrics.cpp:11-31 | outcomes older than the last COMMAND_COUNT have no effect on the window read from the cursor or on the recent conflict count |
| ConflictTracker.ConflictBurst | BedrockConflictMetrics.cpp:18-31 | k <= COMMAND_COUNT conflicts on a fresh tracker give k recent conflicts and COMMAND_COUNT - k recent successes |
| ConflictTracker.NotYetFull | BedrockConflictMetrics.cpp:29-31 | while at most COMMAND_COUNT outcomes have been recorded, the recent conflict count is the count of all of them |
| ConflictTracker.CountBurst | BedrockConflictMetrics.cpp:11-23 | k conflicts followed by j successes hold exactly k conflicts |
| ConflictTracker.SlideOut | BedrockConflictMetrics.cpp:11-16 | after k > 0 conflicts and j successes, one more success leaves k - 1 conflicts in the last k + j outcomes |
| ConflictTracker.Recovery | BedrockConflictMetrics.cpp:11-16 | after at least COMMAND_COUNT successes in a row the recent conflict count is 0, whatever came before |
| RecentWindow.RotatedStep | BedrockConflictMetrics.cpp:13-15 | overwriting the slot at the cursor and advancing the cursor modulo the length drops the oldest slot of the rotated view and appends the new bit |
| RecentWindow.RecentStep | BedrockConflictMetrics.cpp:11-23 | one more outcome drops the oldest of the last-n window and appends the new one |
| RecentWindow.CountRotated | BedrockConflictMetrics.cpp:29-31 | the population count does not depend on where the circular buffer is read from |
| RecentWindow.CountUpdate | BedrockConflictMetrics.cpp:13 | overwriting one slot changes the population count by the difference of the two bits |
| RecentWindow.RecentForgetsOlder | BedrockConflictMetrics.cpp:11-23 | prefixing older outcomes changes neither the last n outcomes nor the window |
| ConflictRegistry.RecordOutcome | BedrockConflictMetrics.cpp:41-67 | the map afterwards has the old keys plus `commandName`; every other entry is unchanged; `commandName`'s entry is its old tracker, or a fresh one when absent, with the outcome recorded |
| ConflictRegistry.RecordOutcomeSplit | BedrockConflictMetrics.cpp:44-51 | recording on the map is find-or-create followed by recording on the found entry |
| ConflictRegistry.Query | BedrockConflictMetrics.cpp:69-98 | an unknown name is allowed and the map is unchanged; a known name is allowed exactly when its population count is below THRESHOLD; only that entry's last verdict changes, and keys, windows, cursors, totals and other entries stay the same |
| ConflictRegistry.EmptyConsistent | BedrockConflictMetrics.cpp:5 | the empty map agrees with the empty call log |
| ConflictRegistry.RecordConsistent | BedrockConflictMetrics.cpp:41-67 | recording keeps the map in step with the call log extended by that call: an entry exactly for the names recorded so far, each reflecting that name's outcomes |
| ConflictRegistry.QueryConsistent | BedrockConflictMetrics.cpp:69-98 | a query keeps the map in step with the call log |
| ConflictRegistry.QueryMeaning | BedrockConflictMetrics.cpp:74-84 | the verdict is true exactly when the name was never recorded, or fewer than THRESHOLD of its last min(COMMAND_COUNT, recorded) outcomes were conflicts |
| ConflictRegistry.ThresholdExample | BedrockConflictMetrics.cpp:84 | with COMMAND_COUNT 10 and THRESHOLD 3, 3 conflicts then 7 successes are denied, and one more success is allowed again |
| ConflictRegistry.Registry.constructor | BedrockConflictMetrics.cpp:5 | the registry starts with an empty map |
| ConflictRegistry.Registry.RecordConflict | BedrockConflictMetrics.cpp:41-53 | the map as a value becomes `RecordOutcome(old map, …, commandName, true)`; only freshly created objects join the footprint |
| ConflictRegistry.Registry.RecordSuccess | BedrockConflictMetrics.cpp:55-67 | the map as a value becomes `RecordOutcome(old map, …, commandName, false)` |
| ConflictRegistry.Registry.FindOrCreate | BedrockConflictMetrics.cpp:44-50 | returns the tracker stored under the name; the map gains a fresh tracker for it only if the name was absent, and is otherwise unchanged |
| ConflictRegistry.Registry.RecordOn | BedrockConflictMetrics.cpp:51 | only the named entry records the outcome; every other entry is unchanged |
| ConflictRegistry.Registry.MultiWriteOK | BedrockConflictMetrics.cpp:69-98 | the verdict and the new map are `Query(old map, THRESHOLD, commandName)`; no entry is created; for a tracker that reflects its history, the verdict is "fewer than THRESHOLD conflicts among its last COMMAND_COUNT outcomes" |
| ConflictRegistry.Registry.StoreVerdict | BedrockConflictMetrics.cpp:96 | only the named tracker's last verdict changes; its history and every other entry are unchanged |

## Left out

- The recursive mutex and `SAUTOLOCK` (BedrockConflictMetrics.cpp:4, 42, 56, 70) are left out. Each call is modelled as running alone to completion.
- All `SINFO` logging (BedrockConflictMetrics.cpp:52, 66, 77, 85-95) is left out. This includes:
  - the transition check `result != _lastCheckOK`, which only decides whether a log line is written;
  - `totalAttempts` and `min(COMMAND_COUNT, totalAttempts)`, which appear only in log text.
- The static storage of the map and mutex (BedrockConflictMetrics.cpp:4-5) becomes an explicitly constructed `Registry` object.
- COMMAND_COUNT, THRESHOLD and the initial `_lastCheckOK` are constructor parameters, because the header that defines them is not part of this model.
- The 64-bit lifetime totals are unbounded naturals, so wrap-around after 2^64 calls is not modelled.
- The C++ `int` returned by the recent counts is an unbounded integer.
- `std::bitset::count` is modelled as a loop that counts the set bits.
- ConflictRegistry.Registry.Valid keeps only the trackers' shape, not their history. Carrying each tracker's `Reflects` invariant through the map's frame reasoning was too costly to verify. What the registry does in terms of the calls made is therefore stated on the map as a value: `RecordOutcome` and `Query` describe the operations, and `RecordConsistent`, `QueryConsistent` and `QueryMeaning` relate the result to the call log.
- ConflictRegistry.Registry.MultiWriteOK: the history form of the verdict is conditional on the tracker reflecting its history, because the registry invariant does not carry it.
- ConflictTracker.Tracker.TotalSuccessCount and ConflictTracker.Tracker.TotalConflictCount require the tracker to reflect its history. Without that, the totals are just fields.
- The relation between the cursor and the number of outcomes recorded (cursor = recorded mod COMMAND_COUNT) is not stated separately. `Reflects` implies what the source relies on.
- test/clustertest/tests/FutureExecutionTest.cpp is an end-to-end cluster test run over the network. It has no logic of this core to model.
