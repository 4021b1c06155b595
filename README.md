# EDF overlay of FreEDFRTOS, modelled in Dafny

This project models the earliest-deadline-first (EDF) overlay of `demo/edf/demo.c`.
The overlay runs on a fixed-priority kernel (FreeRTOS). It keeps a ten-slot
registry of task records. Each record holds a deadline and a kernel task handle.
Every time the registry changes, the overlay gives each registered task one of
two kernel priorities: the running tier for the tasks whose deadline is the
earliest, and the waiting tier for all others.

Worker tasks report their lifecycle by sending messages. They send Created
before they start their work and Completed when they finish. A dedicated
scheduler task receives each message and updates the registry and the kernel.

The model has five modules:

- `EdfTypes` (`edf_types.dfy`) holds the data model. It has the tick type
  `Tick`, taken to be 32 bits wide, and `MaxTick`, the start value
  `0xFFFFFFFFUL` of the earliest-deadline search (demo/edf/demo.c:261). It has
  the ten-slot capacity `TaskArraySize` (`mainTASK_ARRAY_SIZE`,
  demo/edf/demo.c:34). It has the four priority tiers, which are derived from
  the kernel's `configMAX_PRIORITIES` (demo/edf/demo.c:41-44). It has the status
  tags `TaskStatus` (demo/edf/demo.c:16), the `TaskParameters` records
  (demo/edf/demo.c:24-28) and the `Message` datatype (demo/edf/demo.c:18-22). A record is an object with immutable
  `deadline` and `handle` fields, and the registry compares records by object
  identity, as the C code compares pointers.
- `Registry` (`registry.dfy`) describes, on a sequence of slots, what
  `addTaskToArray` and `removeTaskFromArray` do (`Added`, `Removed`), and
  proves their properties.
- `PriorityAssigner` (`priority_assigner.dfy`) describes what
  `setTaskPriorities` does. `EarliestDeadline` is the result of its first loop.
  `Assigned` is the priority map after its second loop. `Recomputed` combines
  the two. The module proves the two-tier property and idempotence.
- `Scheduler` (`scheduler.dfy`) holds the class `EdfOverlay`. The class has the
  registry as an `array` of ten nullable record references. It also has the
  kernel state that the overlay changes: the priority of each handle and the
  set of live tasks. `AddTaskToArray`, `RemoveTaskFromArray` and
  `SetTaskPriorities` are methods whose loops carry invariants; `Dispatch`
  handles one message by calling them. Each method is proved equal to the
  corresponding function on the old state. `Step` is that function for the
  dispatch.
- `Scenarios` (`scenarios.dfy`) feeds message sequences from workers that
  follow the protocol to `Step`, starting from an empty registry.

The kernel calls `vTaskPrioritySet` and `vTaskDelete` become updates of the
kernel state (`TaskPrioritySet`, `TaskDelete`). `configMAX_PRIORITIES` is a
kernel configuration value, so it is a parameter (`maxPriorities`).

Two behaviours of `demo.c` are worth knowing:

- `addTaskToArray` (demo/edf/demo.c:228-238) does not check whether the record
  is already registered. A second Created for the same record takes a second
  slot, and one Completed then leaves a stale entry
  (`Registry.RepeatedAddLeavesStaleEntry`).
- The earliest-deadline search starts at `0xFFFFFFFF` (demo/edf/demo.c:261)
  and keeps only strictly smaller deadlines. A record whose deadline is
  `0xFFFFFFFF` therefore gets the running tier when no smaller deadline is
  registered (demo/edf/demo.c:280-282, `PriorityAssigner.SentinelDeadlineIsUrgent`).
  When `TickType_t` is 32 bits wide, `portMAX_DELAY` is such a deadline.

## Model

| member | source | states |
|---|---|---|
| `EdfTypes.SchedulerPriority` | demo/edf/demo.c:41 | the scheduler task's priority is the highest kernel priority, one below `configMAX_PRIORITIES` |
| `EdfTypes.NewTaskPriority` | demo/edf/demo.c:42 | new tasks are spawned one priority below the scheduler task |
| `EdfTypes.RunningPriority` | demo/edf/demo.c:43 | the running tier is one priority below new tasks |
| `EdfTypes.WaitingPriority` | demo/edf/demo.c:44 | the waiting tier is one priority below the running tier |
| `EdfTypes.TierOrdering` | demo/edf/demo.c:41-44 | waiting < running < new-task < scheduler priority; with at least four kernel priorities all four are valid priorities |
| `EdfTypes.EmptyRegistry` | demo/edf/demo.c:34-35 | the registry starts as `TaskArraySize` (ten, `mainTASK_ARRAY_SIZE`) NULL slots |
| `EdfTypes.TaskParameters.constructor` | demo/edf/demo.c:24-28 | a record carries the given deadline and kernel handle |
| `Registry.FirstSlot` | demo/edf/demo.c:230-236 | the index-order scan finds the lowest slot holding the given reference, or reports that none does |
| `Registry.Added` | demo/edf/demo.c:228-238 | an add changes at most one slot, from NULL to the record; with a free slot the first NULL slot holds the record afterwards; a full registry is unchanged |
| `Registry.Removed` | demo/edf/demo.c:240-250 | a remove changes at most one slot, from the record to NULL; a registered record's first slot becomes NULL; an unregistered record leaves the registry unchanged |
| `Registry.AddStoresInFirstFree` | demo/edf/demo.c:230-235 | with a free slot, the record goes into the lowest-index NULL slot and every other slot is unchanged |
| `Registry.AddWhenFullUnchanged` | demo/edf/demo.c:230-237 | into a full registry, an add leaves every slot unchanged (the record is silently not registered) |
| `Registry.RemoveClearsFirstMatch` | demo/edf/demo.c:242-247 | only the lowest-index slot holding the identical record becomes NULL |
| `Registry.RemoveAbsentUnchanged` | demo/edf/demo.c:242-249 | removing a record no slot holds leaves every slot unchanged |
| `Registry.AddThenRemoveRestores` | demo/edf/demo.c:228-250 | for an unregistered record and a registry with a free slot, add then remove gives back exactly the original slots |
| `Registry.Occupied` | demo/edf/demo.c:34-35 | the count of occupied slots is at most the capacity, equals it exactly when no slot is NULL, and is 0 exactly when all are NULL |
| `Registry.AddOccupancy` | demo/edf/demo.c:230-237 | an add occupies one more slot exactly when a slot was free; a full registry stays at capacity |
| `Registry.RemoveOccupancy` | demo/edf/demo.c:242-249 | a remove frees one slot exactly when the record was registered |
| `Registry.AddRegisters` | demo/edf/demo.c:228-238 | with a free slot, the record is registered afterwards and every other record's registration is unchanged |
| `Registry.RemoveUnregisters` | demo/edf/demo.c:240-250 | for a record held at most once, it is unregistered afterwards and every other record's registration is unchanged |
| `Registry.RepeatedAddLeavesStaleEntry` | demo/edf/demo.c:228-250 | with two free slots, adding the same record twice and removing it once leaves it registered |
| `PriorityAssigner.EarliestDeadline` | demo/edf/demo.c:261-272 | the first loop's result is at most every registered deadline, equals some registered deadline when any record is registered, and is the start value `MaxTick` (`0xFFFFFFFF`) when none is |
| `PriorityAssigner.Assigned` | demo/edf/demo.c:275-288 | the priority-set calls leave exactly the old handles plus the registered handles in the priority map, put every registered handle at the running or the waiting tier, and leave every other handle's priority unchanged |
| `PriorityAssigner.Tier` | demo/edf/demo.c:280-287 | a registered record gets either the running or the waiting tier, and the running tier exactly when its deadline equals the earliest deadline |
| `PriorityAssigner.Handles` | demo/edf/demo.c:275-288 | the handles the second loop touches are exactly those of the occupied slots |
| `PriorityAssigner.Recomputed` | demo/edf/demo.c:252-289 | after `setTaskPriorities` the priority map holds the old handles plus the registered ones; every registered handle is at the running or the waiting tier; every other handle keeps its priority |
| `PriorityAssigner.AssignedIsOverride` | demo/edf/demo.c:275-288 | the second loop overrides the old priority map with a map that depends on the slots alone |
| `PriorityAssigner.AssignedAt` | demo/edf/demo.c:278-287 | each registered handle ends up at the tier of its own deadline |
| `PriorityAssigner.AssignedKeepsOthers` | demo/edf/demo.c:275-288 | a handle not in the registry keeps its priority, or stays without one |
| `PriorityAssigner.RecomputedTiers` | demo/edf/demo.c:252-289 | after `setTaskPriorities` a registered handle is at the running tier exactly when its deadline equals the minimum, and at the waiting tier otherwise; ties are all promoted |
| `PriorityAssigner.RecomputedIsTwoTier` | demo/edf/demo.c:252-289 | after `setTaskPriorities` the running tier holds exactly the registered records whose deadline is no later than any other registered deadline, and every other registered record is waiting |
| `PriorityAssigner.RecomputedKeepsOthers` | demo/edf/demo.c:252-289 | handles not in the registry keep their priority; an empty registry changes no priority |
| `PriorityAssigner.RecomputeIdempotent` | demo/edf/demo.c:252-289 | running `setTaskPriorities` twice with no registry change gives the same priority map as running it once |
| `PriorityAssigner.SentinelDeadlineIsUrgent` | demo/edf/demo.c:261-282 | a record with deadline `0xFFFFFFFF` is at the running tier when no smaller deadline is registered |
| `Scheduler.Step` | demo/edf/demo.c:106-129 | one dispatch step on a `Message` (demo.c:18-22) whose `TaskStatus` tag (demo.c:16) is Completed, Created, Running or any other value keeps the number of slots; only Completed deletes a kernel task, the message's one; Created changes slots only from NULL to the record and registers it when a slot is free; Completed changes slots only from the record to NULL; after either, the priority map covers the old handles plus the registered ones and unregistered handles keep their priority; any other tag changes nothing |
| `Scheduler.StepIgnoresOtherTags` | demo/edf/demo.c:124-128 | a Running message or an unrecognised tag changes neither the registry, nor the priorities, nor the live tasks |
| `Scheduler.StepKeepsTwoTier` | demo/edf/demo.c:106-129 | every dispatch step leaves the registry two-tiered when records sharing a handle share a deadline, and handles outside the registry keep their priority |
| `Scheduler.StepRegistration` | demo/edf/demo.c:108-123 | Created registers the record (given a free slot); Completed unregisters it (when it is held once); no other record changes |
| `Scheduler.WorkerLifecycleRestoresRegistry` | demo/edf/demo.c:213-226 | a worker's Created then Completed leaves the registry as it was and the worker's kernel task deleted, whether the Created found a free slot or a full registry |
| `Scheduler.EdfOverlay.constructor` | demo/edf/demo.c:34-35 | the overlay starts with ten NULL slots over the given kernel state |
| `Scheduler.EdfOverlay.TaskPrioritySet` | demo/edf/demo.c:282-286 | the kernel priority-set call changes the priority of one handle and nothing else |
| `Scheduler.EdfOverlay.TaskDelete` | demo/edf/demo.c:113 | the kernel delete call removes one live task from the live set and nothing else |
| `Scheduler.EdfOverlay.AddTaskToArray` | demo/edf/demo.c:228-238 | the loop with early return turns the array into `Added` of its old contents |
| `Scheduler.EdfOverlay.RemoveTaskFromArray` | demo/edf/demo.c:240-250 | the loop with early return turns the array into `Removed` of its old contents |
| `Scheduler.EdfOverlay.SetTaskPriorities` | demo/edf/demo.c:252-289 | the two loops turn the priority map into `Recomputed` of the old map and the array; live tasks are unchanged |
| `Scheduler.EdfOverlay.Dispatch` | demo/edf/demo.c:106-129 | handling one message moves the registry, priorities and live tasks to `Step` of the old state |
| `Scenarios.TwoCreatedSlots` | demo/edf/demo.c:117-123 | two Created messages into an empty registry fill slots 0 and 1 in arrival order |
| `Scenarios.EarlierDeadlineIsUrgent` | demo/edf/demo.c:117-123 | two workers with different deadlines (such as 2000 and 4000), created in either order: the earlier is running, the later is waiting |
| `Scenarios.SurvivorBecomesUrgent` | demo/edf/demo.c:108-116 | when the earlier worker completes, its task is deleted, its slot is freed, and the survivor becomes running |
| `Scenarios.TiesAreAllPromoted` | demo/edf/demo.c:275-287 | with deadlines like {10, 10, 20}, both earliest workers are running at once and the third is waiting |

## Left out

- The lifecycle message queue (`xQueueCreate`, `xQueueSend`, `xQueueReceive`) is not modelled. This includes its capacity of ten, its timeouts and the silent drop of a message sent to a full queue. The model starts from a received message, so the case of an eleventh message being dropped is not covered.
- Task creation (`xTaskCreate`) and `vTaskStartScheduler` are not modelled, nor are the internals of `vTaskDelete` and `vTaskPrioritySet`. These are kernel calls whose code is not part of this model. The kernel is reduced to a priority map and a set of live handles.
- `Scheduler.EdfOverlay.TaskDelete` removes only the handle from the live set. The deleted task's last priority stays in the priority map.
- A priority-set on a handle that is not live is recorded like any other. The kernel's behaviour there is not modelled.
- Deleting a task that is not live is fatal in the kernel. `Step`, `Dispatch` and `TaskDelete` require a Completed message to name a live handle, instead of modelling the crash.
- The scheduler task's endless receive loop is modelled as one `Dispatch` per received message. Longer runs appear only as explicit chains of `Step` in `Scenarios`.
- Preemption, time slicing and the interleaving of several producers are not modelled. They concern concurrency, not the overlay's logic.
- The worker bodies are not modelled: the SAD computation in `prvSadTask`, the `rand()` data and the tick-count polling in `prvDataTask`. Only their order of Created and then Completed is modelled.
- Pointer-aliasing hazards are not modelled. Workers send the address of a stack copy of their parameters, and `sadParams` is reused across loop iterations. In the model a record is an immutable object with its own identity.
- A NULL record pointer in a message is not modelled. A message always refers to a record.
- The `printf` and DEBUG output are not modelled. The `default` branch's log line is treated as a no-op.
- The bootstrap in `main_crashy_mc_splody_demo_demo` is not modelled. The constructor takes the kernel's initial tasks and priorities as given.
- `TickType_t` is taken to be 32 bits wide; its width comes from the kernel port, which is not part of this model. With a wider tick type `portMAX_DELAY` exceeds the search's start value `0xFFFFFFFF`, and deadlines above `0xFFFFFFFF` are not representable in the model.
- Tick-counter wrap-around is not modelled. Deadlines are compared as plain numbers in `0..0xFFFFFFFF`.
- `EdfTypes.TierOrdering`: priorities are unbounded integers. With fewer than four kernel priorities the waiting tier is negative, where the C unsigned arithmetic would wrap.
- `PriorityAssigner.RecomputedIsTwoTier`, `PriorityAssigner.RecomputedTiers`, `PriorityAssigner.AssignedAt` and `Scheduler.StepKeepsTwoTier` assume that records sharing a kernel handle share a deadline. Without that assumption, the last such slot's priority-set wins. These lemmas do not describe that case.
- `Scheduler.StepRegistration` assumes a free slot for Created and a record held at most once for Completed. Outside those cases, `Registry.AddWhenFullUnchanged` and `Registry.RepeatedAddLeavesStaleEntry` describe what happens.
