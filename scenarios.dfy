/**
 Message sequences a set of workers following the lifecycle protocol of
 demo/edf/demo.c sends to the scheduler task, fed to the dispatch step from
 an empty registry, and the priorities that result.
 */
module Scenarios {
  import opened EdfTypes
  import opened Registry
  import opened PriorityAssigner
  import opened Scheduler

  function Created(p: TaskParameters): Message { Message(StatusCreated, p) }

  function Completed(p: TaskParameters): Message { Message(StatusCompleted, p) }

  /** Two Created messages into an empty registry fill slots 0 and 1. */
  lemma TwoCreatedSlots(st: OverlayState, a: TaskParameters, b: TaskParameters, maxPriorities: nat)
    requires st.slots == EmptyRegistry() && a != b
    ensures Step(Step(st, Created(a), maxPriorities), Created(b), maxPriorities).slots ==
      EmptyRegistry()[0 := a][1 := b]
  {
    var s0 := EmptyRegistry();
    AddStoresInFirstFree(s0, a, 0);
    AddStoresInFirstFree(s0[0 := a], b, 1);
  }

  /** In a registry whose occupied slots hold distinct handles, records that
      share a handle are the same record and so share a deadline. */
  lemma DistinctHandlesConsistent(s: seq<Slot>)
    requires forall i, j ::
      (0 <= i < |s| && 0 <= j < |s| && i != j && s[i] != null && s[j] != null) ==> s[i].handle != s[j].handle
    ensures HandlesConsistent(s)
  {
  }

  /** The priorities `setTaskPriorities` gives two registered records with
      different deadlines in slots 0 and 1: the earlier one runs, the later
      one waits. */
  lemma PairTiers(prio: map<Handle, Priority>, x: TaskParameters, y: TaskParameters, maxPriorities: nat)
    requires x.deadline != y.deadline && x.handle != y.handle
    ensures var r := Recomputed(prio, EmptyRegistry()[0 := x][1 := y], maxPriorities);
      x.handle in r && y.handle in r &&
      r[x.handle] == (if x.deadline < y.deadline then RunningPriority(maxPriorities) else WaitingPriority(maxPriorities)) &&
      r[y.handle] == (if y.deadline < x.deadline then RunningPriority(maxPriorities) else WaitingPriority(maxPriorities))
  {
    var s := EmptyRegistry()[0 := x][1 := y];
    assert s[0] == x && s[1] == y;
    assert forall j :: 2 <= j < |s| ==> s[j] == null;
    DistinctHandlesConsistent(s);
    assert EarliestDeadline(s) == if x.deadline < y.deadline then x.deadline else y.deadline;
    RecomputedTiers(prio, s, maxPriorities, 0);
    RecomputedTiers(prio, s, maxPriorities, 1);
  }

  /** Two workers with different deadlines (such as 2000 and 4000) announce
      themselves in either order: the earlier one is at the running tier and
      the later one at the waiting tier. */
  lemma EarlierDeadlineIsUrgent(st: OverlayState, a: TaskParameters, b: TaskParameters, maxPriorities: nat)
    requires st.slots == EmptyRegistry()
    requires a.deadline < b.deadline && a.handle != b.handle
    ensures var ab := Step(Step(st, Created(a), maxPriorities), Created(b), maxPriorities);
      a.handle in ab.priority && ab.priority[a.handle] == RunningPriority(maxPriorities) &&
      b.handle in ab.priority && ab.priority[b.handle] == WaitingPriority(maxPriorities)
    ensures var ba := Step(Step(st, Created(b), maxPriorities), Created(a), maxPriorities);
      a.handle in ba.priority && ba.priority[a.handle] == RunningPriority(maxPriorities) &&
      b.handle in ba.priority && ba.priority[b.handle] == WaitingPriority(maxPriorities)
  {
    TwoCreatedSlots(st, a, b, maxPriorities);
    PairTiers(Step(st, Created(a), maxPriorities).priority, a, b, maxPriorities);
    TwoCreatedSlots(st, b, a, maxPriorities);
    PairTiers(Step(st, Created(b), maxPriorities).priority, b, a, maxPriorities);
  }

  /** The priority `setTaskPriorities` gives the only registered record, in
      slot 1: the running tier. */
  lemma SingleTier(prio: map<Handle, Priority>, b: TaskParameters, maxPriorities: nat)
    ensures var r := Recomputed(prio, EmptyRegistry()[1 := b], maxPriorities);
      b.handle in r && r[b.handle] == RunningPriority(maxPriorities)
  {
    var s := EmptyRegistry()[1 := b];
    assert s[1] == b;
    assert forall j :: 0 <= j < |s| && j != 1 ==> s[j] == null;
    DistinctHandlesConsistent(s);
    assert EarliestDeadline(s) == b.deadline;
    RecomputedTiers(prio, s, maxPriorities, 1);
  }

  /** A Completed message for the record in slot 0 of a registry holding
      records in slots 0 and 1 only leaves the record in slot 1, at the
      running tier. */
  lemma CompletedFirstOfPair(ab: OverlayState, a: TaskParameters, b: TaskParameters, maxPriorities: nat)
    requires ab.slots == EmptyRegistry()[0 := a][1 := b] && a != b && a.handle in ab.live
    ensures var done := Step(ab, Completed(a), maxPriorities);
      done.slots == EmptyRegistry()[1 := b] &&
      done.live == ab.live - {a.handle} &&
      b.handle in done.priority && done.priority[b.handle] == RunningPriority(maxPriorities)
  {
    RemoveClearsFirstMatch(ab.slots, a, 0);
    assert ab.slots[0 := null] == EmptyRegistry()[1 := b];
    SingleTier(ab.priority, b, maxPriorities);
  }

  /** When the worker with the earlier deadline completes, its kernel task is
      deleted and the only remaining worker moves to the running tier. */
  lemma SurvivorBecomesUrgent(st: OverlayState, a: TaskParameters, b: TaskParameters, maxPriorities: nat)
    requires st.slots == EmptyRegistry()
    requires a.deadline < b.deadline && a.handle != b.handle && a.handle in st.live
    ensures var ab := Step(Step(st, Created(a), maxPriorities), Created(b), maxPriorities);
      var done := Step(ab, Completed(a), maxPriorities);
      done.slots == EmptyRegistry()[1 := b] &&
      done.live == st.live - {a.handle} &&
      b.handle in done.priority && done.priority[b.handle] == RunningPriority(maxPriorities)
  {
    var ab := Step(Step(st, Created(a), maxPriorities), Created(b), maxPriorities);
    TwoCreatedSlots(st, a, b, maxPriorities);
    CompletedFirstOfPair(ab, a, b, maxPriorities);
  }

  /** The priorities `setTaskPriorities` gives three registered records in
      slots 0, 1 and 2, the first two sharing the earliest deadline. */
  lemma TripleTiers(
    prio: map<Handle, Priority>, a: TaskParameters, b: TaskParameters, c: TaskParameters, maxPriorities: nat)
    requires a.deadline == b.deadline < c.deadline
    requires a.handle != b.handle && a.handle != c.handle && b.handle != c.handle
    ensures var r := Recomputed(prio, EmptyRegistry()[0 := a][1 := b][2 := c], maxPriorities);
      a.handle in r && r[a.handle] == RunningPriority(maxPriorities) &&
      b.handle in r && r[b.handle] == RunningPriority(maxPriorities) &&
      c.handle in r && r[c.handle] == WaitingPriority(maxPriorities)
  {
    var s := EmptyRegistry()[0 := a][1 := b][2 := c];
    assert s[0] == a && s[1] == b && s[2] == c;
    assert forall j :: 3 <= j < |s| ==> s[j] == null;
    DistinctHandlesConsistent(s);
    assert EarliestDeadline(s) == a.deadline;
    RecomputedTiers(prio, s, maxPriorities, 0);
    RecomputedTiers(prio, s, maxPriorities, 1);
    RecomputedTiers(prio, s, maxPriorities, 2);
  }

  /** A Created message into a registry holding records in slots 0 and 1
      only, the two sharing the earliest deadline, fills slot 2; the first two
      records are running and the third waits. */
  lemma CreatedThirdOfPair(
    ab: OverlayState, a: TaskParameters, b: TaskParameters, c: TaskParameters, maxPriorities: nat)
    requires ab.slots == EmptyRegistry()[0 := a][1 := b]
    requires a.deadline == b.deadline < c.deadline
    requires a.handle != b.handle && a.handle != c.handle && b.handle != c.handle
    ensures var abc := Step(ab, Created(c), maxPriorities);
      a.handle in abc.priority && abc.priority[a.handle] == RunningPriority(maxPriorities) &&
      b.handle in abc.priority && abc.priority[b.handle] == RunningPriority(maxPriorities) &&
      c.handle in abc.priority && abc.priority[c.handle] == WaitingPriority(maxPriorities)
  {
    var abc := EmptyRegistry()[0 := a][1 := b][2 := c];
    AddStoresInFirstFree(ab.slots, c, 2);
    assert Step(ab, Created(c), maxPriorities) ==
      OverlayState(abc, Recomputed(ab.priority, abc, maxPriorities), ab.live);
    TripleTiers(ab.priority, a, b, c, maxPriorities);
  }

  /** Three workers with deadlines like {10, 10, 20}: both workers sharing the
      earliest deadline are at the running tier at once, the third waits. */
  lemma TiesAreAllPromoted(
    st: OverlayState, a: TaskParameters, b: TaskParameters, c: TaskParameters, maxPriorities: nat)
    requires st.slots == EmptyRegistry()
    requires a.deadline == b.deadline < c.deadline
    requires a.handle != b.handle && a.handle != c.handle && b.handle != c.handle
    ensures var abc := Step(Step(Step(st, Created(a), maxPriorities), Created(b), maxPriorities),
                            Created(c), maxPriorities);
      a.handle in abc.priority && abc.priority[a.handle] == RunningPriority(maxPriorities) &&
      b.handle in abc.priority && abc.priority[b.handle] == RunningPriority(maxPriorities) &&
      c.handle in abc.priority && abc.priority[c.handle] == WaitingPriority(maxPriorities)
  {
    var ab := Step(Step(st, Created(a), maxPriorities), Created(b), maxPriorities);
    TwoCreatedSlots(st, a, b, maxPriorities);
    CreatedThirdOfPair(ab, a, b, c, maxPriorities);
  }
}
