/**
 The data model of the EDF overlay in demo/edf/demo.c: the tick and handle
 types it works with, the registry capacity, the four kernel priority tiers,
 the lifecycle status tags, task records and lifecycle messages.
 */
module EdfTypes {

  /** The start value `0xFFFFFFFFUL` of the earliest-deadline search, taken
      here as the largest value of the kernel's tick type, which this model
      takes to be 32 bits wide (then it is also the value of `portMAX_DELAY`). */
  const MaxTick: int := 0xFFFF_FFFF

  /** A kernel tick count (`TickType_t`, taken to be a 32-bit unsigned type). */
  type Tick = x: int | 0 <= x <= MaxTick

  /** A kernel task handle (`TaskHandle_t`), used only as an identity key. */
  type Handle = nat

  /** A kernel task priority. */
  type Priority = int

  /** Number of slots of the task registry (`mainTASK_ARRAY_SIZE`). */
  const TaskArraySize: nat := 10

  /* The four priority tiers, derived from the kernel's configMAX_PRIORITIES,
     which is a kernel configuration value and therefore a parameter here. */

  /** The scheduler task's priority: the highest kernel priority. */
  function SchedulerPriority(maxPriorities: nat): (r: Priority)
    ensures r < maxPriorities && r + 1 == maxPriorities
  {
    maxPriorities - 1
  }

  /** The spawn priority of new tasks: just below the scheduler task. */
  function NewTaskPriority(maxPriorities: nat): (r: Priority)
    ensures r + 1 == SchedulerPriority(maxPriorities)
  {
    maxPriorities - 2
  }

  /** The tier of the tasks with the earliest deadline: just below new tasks. */
  function RunningPriority(maxPriorities: nat): (r: Priority)
    ensures r + 1 == NewTaskPriority(maxPriorities)
  {
    NewTaskPriority(maxPriorities) - 1
  }

  /** The tier of all other registered tasks: just below the running tier. */
  function WaitingPriority(maxPriorities: nat): (r: Priority)
    ensures r + 1 == RunningPriority(maxPriorities)
  {
    RunningPriority(maxPriorities) - 1
  }

  /** The tiers are strictly ordered, and with at least four kernel priorities
      all of them are valid kernel priorities. */
  lemma TierOrdering(maxPriorities: nat)
    ensures WaitingPriority(maxPriorities) < RunningPriority(maxPriorities)
    ensures RunningPriority(maxPriorities) < NewTaskPriority(maxPriorities)
    ensures NewTaskPriority(maxPriorities) < SchedulerPriority(maxPriorities)
    ensures maxPriorities >= 4 ==>
      0 <= WaitingPriority(maxPriorities) && SchedulerPriority(maxPriorities) < maxPriorities
  {
  }

  /** The status tag of a lifecycle message. The C enum has the three named
      values 0, 1 and 2; `StatusOther` stands for any other value the tag
      field may hold. */
  datatype TaskStatus =
    | StatusCompleted
    | StatusRunning
    | StatusCreated
    | StatusOther

  /** A task record (`struct TaskParameters`): its absolute deadline and the
      handle of the kernel task it describes. Records are compared by identity,
      as the C code compares pointers. */
  class TaskParameters {
    const deadline: Tick
    const handle: Handle

    constructor (deadline: Tick, handle: Handle)
      ensures this.deadline == deadline && this.handle == handle
    {
      this.deadline := deadline;
      this.handle := handle;
    }
  }

  /** A registry slot: a record reference or NULL. */
  type Slot = TaskParameters?

  /** A lifecycle message (`struct Message`). */
  datatype Message = Message(status: TaskStatus, params: TaskParameters)

  /** The registry as it starts: every slot NULL. */
  function EmptyRegistry(): (r: seq<Slot>)
    ensures |r| == TaskArraySize && forall i :: 0 <= i < |r| ==> r[i] == null
  {
    seq(TaskArraySize, _ => null)
  }
}
