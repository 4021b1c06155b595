/**
 The scheduler side of the EDF overlay in demo/edf/demo.c: the registry
 `taskArray` as an array of record references, the kernel state the overlay
 changes (priorities and live tasks), the three registry operations and one
 step of the scheduler task's message dispatch.
 */
module Scheduler {
  import opened EdfTypes
  import opened Registry
  import opened PriorityAssigner

  /** What one dispatch step reads and changes: the registry slots, the
      kernel's priority per task handle, and the set of live kernel tasks. */
  datatype OverlayState = OverlayState(slots: seq<Slot>, priority: map<Handle, Priority>, live: set<Handle>)

  /** The effect of handling one message: Completed deletes the kernel task,
      removes the record and recomputes priorities; Created adds the record and
      recomputes priorities; every other tag changes nothing. Deleting a task
      that is not live is fatal in the kernel, so a Completed message must name
      a live task. */
  function Step(st: OverlayState, msg: Message, maxPriorities: nat): (r: OverlayState)
    requires msg.status.StatusCompleted? ==> msg.params.handle in st.live
    ensures |r.slots| == |st.slots|
    ensures r.live == if msg.status.StatusCompleted? then st.live - {msg.params.handle} else st.live
    ensures msg.status.StatusCreated? && null in st.slots ==> msg.params in r.slots
    ensures msg.status.StatusCreated? ==>
      forall j :: 0 <= j < |st.slots| && r.slots[j] != st.slots[j] ==> st.slots[j] == null && r.slots[j] == msg.params
    ensures msg.status.StatusCompleted? ==>
      forall j :: 0 <= j < |st.slots| && r.slots[j] != st.slots[j] ==> st.slots[j] == msg.params && r.slots[j] == null
    ensures msg.status.StatusCompleted? || msg.status.StatusCreated? ==>
      r.priority.Keys == st.priority.Keys + Handles(r.slots) &&
      forall h :: h in st.priority && h !in Handles(r.slots) ==> r.priority[h] == st.priority[h]
    ensures !msg.status.StatusCompleted? && !msg.status.StatusCreated? ==> r == st
  {
    match msg.status
    case StatusCompleted =>
      var slots := Removed(st.slots, msg.params);
      OverlayState(slots, Recomputed(st.priority, slots, maxPriorities), st.live - {msg.params.handle})
    case StatusCreated =>
      var slots := Added(st.slots, msg.params);
      OverlayState(slots, Recomputed(st.priority, slots, maxPriorities), st.live)
    case StatusRunning => st
    case StatusOther => st
  }

  /** A Running message or an unrecognised tag changes neither the registry,
      nor the priorities, nor the live tasks. */
  lemma StepIgnoresOtherTags(st: OverlayState, msg: Message, maxPriorities: nat)
    requires !msg.status.StatusCompleted? && !msg.status.StatusCreated?
    ensures Step(st, msg, maxPriorities) == st
  {
  }

  /** Every step leaves the registry two-tiered: after Created and Completed
      because priorities are recomputed, after any other tag because nothing
      changes. Handles outside the new registry keep their priority. */
  lemma StepKeepsTwoTier(st: OverlayState, msg: Message, maxPriorities: nat)
    requires msg.status.StatusCompleted? ==> msg.params.handle in st.live
    requires TwoTier(st.priority, st.slots, maxPriorities)
    requires HandlesConsistent(Step(st, msg, maxPriorities).slots)
    ensures TwoTier(Step(st, msg, maxPriorities).priority, Step(st, msg, maxPriorities).slots, maxPriorities)
    ensures forall h :: h in st.priority && h !in Handles(Step(st, msg, maxPriorities).slots) ==>
      h in Step(st, msg, maxPriorities).priority &&
      Step(st, msg, maxPriorities).priority[h] == st.priority[h]
  {
    var next := Step(st, msg, maxPriorities);
    if msg.status.StatusCompleted? || msg.status.StatusCreated? {
      RecomputedIsTwoTier(st.priority, next.slots, maxPriorities);
      RecomputedKeepsOthers(st.priority, next.slots, maxPriorities);
    }
  }

  /** The registry contains a record exactly from the Created step that
      registered it to the Completed step for it, other records unaffected,
      when each record is registered at most once. */
  lemma StepRegistration(st: OverlayState, msg: Message, maxPriorities: nat)
    requires msg.status.StatusCompleted? ==> msg.params.handle in st.live
    requires msg.status.StatusCreated? ==> null in st.slots
    requires msg.status.StatusCompleted? ==> multiset(st.slots)[msg.params] <= 1
    ensures msg.status.StatusCreated? ==> msg.params in Step(st, msg, maxPriorities).slots
    ensures msg.status.StatusCompleted? ==> msg.params !in Step(st, msg, maxPriorities).slots
    ensures forall q: TaskParameters :: q != msg.params ==>
      (q in Step(st, msg, maxPriorities).slots <==> q in st.slots)
  {
    if msg.status.StatusCreated? {
      AddRegisters(st.slots, msg.params);
    } else if msg.status.StatusCompleted? {
      RemoveUnregisters(st.slots, msg.params);
    }
  }

  /** A worker that follows the lifecycle protocol (Created, then Completed
      for the same record) leaves the registry exactly as it found it and its
      kernel task deleted, whether or not the registry had room for it. */
  lemma WorkerLifecycleRestoresRegistry(st: OverlayState, p: TaskParameters, maxPriorities: nat)
    requires p !in st.slots && p.handle in st.live
    ensures var created := Step(st, Message(StatusCreated, p), maxPriorities);
      var completed := Step(created, Message(StatusCompleted, p), maxPriorities);
      completed.slots == st.slots && completed.live == st.live - {p.handle}
  {
    if null in st.slots {
      AddThenRemoveRestores(st.slots, p);
    } else {
      AddWhenFullUnchanged(st.slots, p);
      RemoveAbsentUnchanged(st.slots, p);
    }
  }

  /** The overlay's state: the registry array `taskArray`, and the kernel
      state that `vTaskPrioritySet` and `vTaskDelete` change. */
  class EdfOverlay {
    /** The kernel's configMAX_PRIORITIES. */
    const maxPriorities: nat
    const taskArray: array<Slot>
    var priority: map<Handle, Priority>
    var live: set<Handle>

    ghost predicate Valid()
    {
      taskArray.Length == TaskArraySize
    }

    ghost function State(): OverlayState
      reads this, taskArray
    {
      OverlayState(taskArray[..], priority, live)
    }

    /** An empty registry over a kernel whose tasks and priorities are given. */
    constructor (maxPriorities: nat, priority: map<Handle, Priority>, live: set<Handle>)
      ensures Valid() && fresh(taskArray)
      ensures this.maxPriorities == maxPriorities
      ensures State() == OverlayState(EmptyRegistry(), priority, live)
    {
      this.maxPriorities := maxPriorities;
      taskArray := new Slot[TaskArraySize](_ => null);
      this.priority := priority;
      this.live := live;
      new;
      assert taskArray[..] == EmptyRegistry();
    }

    /** The kernel's `vTaskPrioritySet`. */
    method TaskPrioritySet(h: Handle, p: Priority)
      modifies this
      ensures priority == old(priority)[h := p] && live == old(live)
    {
      priority := priority[h := p];
    }

    /** The kernel's `vTaskDelete`, which requires a live task. */
    method TaskDelete(h: Handle)
      requires h in live
      modifies this
      ensures live == old(live) - {h} && priority == old(priority)
    {
      live := live - {h};
    }

    /** `addTaskToArray`: store `params` in the first NULL slot, if any. */
    method AddTaskToArray(params: TaskParameters)
      requires Valid()
      modifies taskArray
      ensures taskArray[..] == Added(old(taskArray[..]), params)
    {
      for i := 0 to TaskArraySize
        invariant taskArray[..] == old(taskArray[..])
        invariant forall j :: 0 <= j < i ==> taskArray[j] != null
      {
        if taskArray[i] == null {
          FirstSlotIs(taskArray[..], null, i);
          taskArray[i] := params;
          return;
        }
      }
    }

    /** `removeTaskFromArray`: clear the first slot holding `params` itself. */
    method RemoveTaskFromArray(params: TaskParameters)
      requires Valid()
      modifies taskArray
      ensures taskArray[..] == Removed(old(taskArray[..]), params)
    {
      for i := 0 to TaskArraySize
        invariant taskArray[..] == old(taskArray[..])
        invariant forall j :: 0 <= j < i ==> taskArray[j] != params
      {
        if taskArray[i] == params {
          FirstSlotIs(taskArray[..], params, i);
          taskArray[i] := null;
          return;
        }
      }
    }

    /** `setTaskPriorities`: find the earliest registered deadline, then set
        every registered task to the running or the waiting tier. */
    method SetTaskPriorities()
      requires Valid()
      modifies this
      ensures priority == Recomputed(old(priority), taskArray[..], maxPriorities)
      ensures live == old(live)
    {
      var earliestDeadline: Tick := MaxTick;
      for i := 0 to TaskArraySize
        invariant earliestDeadline == EarliestDeadline(taskArray[..i])
      {
        assert taskArray[..i + 1][..i] == taskArray[..i];
        if taskArray[i] == null {
          continue;
        }
        if taskArray[i].deadline < earliestDeadline {
          earliestDeadline := taskArray[i].deadline;
        }
      }
      assert taskArray[..TaskArraySize] == taskArray[..];
      for i := 0 to TaskArraySize
        invariant priority == Assigned(old(priority), taskArray[..i], earliestDeadline, maxPriorities)
        invariant live == old(live)
      {
        assert taskArray[..i + 1][..i] == taskArray[..i];
        if taskArray[i] == null {
          continue;
        }
        if taskArray[i].deadline == earliestDeadline {
          TaskPrioritySet(taskArray[i].handle, RunningPriority(maxPriorities));
        } else {
          TaskPrioritySet(taskArray[i].handle, WaitingPriority(maxPriorities));
        }
      }
    }

    /** One pass of the scheduler task's loop, for one received message. */
    method Dispatch(msg: Message)
      requires Valid()
      requires msg.status.StatusCompleted? ==> msg.params.handle in live
      modifies this, taskArray
      ensures State() == Step(old(State()), msg, maxPriorities)
    {
      match msg.status {
        case StatusCompleted =>
          TaskDelete(msg.params.handle);
          RemoveTaskFromArray(msg.params);
          SetTaskPriorities();
        case StatusCreated =>
          AddTaskToArray(msg.params);
          SetTaskPriorities();
        case StatusRunning =>
        case StatusOther =>
      }
    }
  }
}
