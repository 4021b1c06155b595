/**
 The priority assigner of demo/edf/demo.c (`setTaskPriorities`) as values:
 the earliest deadline over the occupied slots, the kernel priority map the
 per-slot priority-set calls produce, and the two-tier property of that map.
 */
module PriorityAssigner {
  import opened EdfTypes

  /** The value of `earliestDeadline` after the first loop of
      `setTaskPriorities` has scanned the slots `s` in index order, starting
      from the sentinel `MaxTick` and keeping a strictly smaller deadline. */
  function EarliestDeadline(s: seq<Slot>): (r: Tick)
    ensures forall i :: 0 <= i < |s| && s[i] != null ==> r <= s[i].deadline
    ensures (exists i :: 0 <= i < |s| && s[i] != null) ==>
      exists i :: 0 <= i < |s| && s[i] != null && s[i].deadline == r
    ensures (forall i :: 0 <= i < |s| ==> s[i] == null) ==> r == MaxTick
  {
    if s == [] then MaxTick
    else
      var e := EarliestDeadline(s[..|s| - 1]);
      var last := s[|s| - 1];
      if last != null && last.deadline < e then last.deadline else e
  }

  /** The tier the second loop gives a record with deadline `deadline`. */
  function Tier(deadline: Tick, earliest: Tick, maxPriorities: nat): (r: Priority)
    ensures r == RunningPriority(maxPriorities) || r == WaitingPriority(maxPriorities)
    ensures r == RunningPriority(maxPriorities) <==> deadline == earliest
  {
    if deadline == earliest then RunningPriority(maxPriorities) else WaitingPriority(maxPriorities)
  }

  /** The handles of the occupied slots. */
  function Handles(s: seq<Slot>): (r: set<Handle>)
    ensures forall i :: 0 <= i < |s| && s[i] != null ==> s[i].handle in r
    ensures forall h :: h in r ==> exists i :: 0 <= i < |s| && s[i] != null && s[i].handle == h
  {
    set i | 0 <= i < |s| && s[i] != null :: s[i].handle
  }

  /** The kernel priority map after the second loop of `setTaskPriorities`
      has issued, slot by slot in index order, one priority-set per occupied
      slot, starting from the map `prio`. */
  function Assigned(prio: map<Handle, Priority>, s: seq<Slot>, earliest: Tick, maxPriorities: nat)
    : (r: map<Handle, Priority>)
    ensures r.Keys == prio.Keys + Handles(s)
    ensures forall h :: h in Handles(s) ==> r[h] == RunningPriority(maxPriorities) || r[h] == WaitingPriority(maxPriorities)
    ensures forall h :: h in prio && h !in Handles(s) ==> r[h] == prio[h]
  {
    if s == [] then prio
    else
      var q := Assigned(prio, s[..|s| - 1], earliest, maxPriorities);
      var last := s[|s| - 1];
      assert Handles(s) == Handles(s[..|s| - 1]) + (if last == null then {} else {last.handle});
      if last == null then q else q[last.handle := Tier(last.deadline, earliest, maxPriorities)]
  }

  /** The kernel priority map after `setTaskPriorities` on the slots `s`. */
  function Recomputed(prio: map<Handle, Priority>, s: seq<Slot>, maxPriorities: nat): (r: map<Handle, Priority>)
    ensures r.Keys == prio.Keys + Handles(s)
    ensures forall h :: h in Handles(s) ==> r[h] == RunningPriority(maxPriorities) || r[h] == WaitingPriority(maxPriorities)
    ensures forall h :: h in prio && h !in Handles(s) ==> r[h] == prio[h]
  {
    Assigned(prio, s, EarliestDeadline(s), maxPriorities)
  }

  /** Records in occupied slots that share a handle share a deadline (which
      holds in particular when the occupied slots have distinct handles). */
  ghost predicate HandlesConsistent(s: seq<Slot>)
  {
    forall i, j ::
      (0 <= i < |s| && 0 <= j < |s| && s[i] != null && s[j] != null && s[i].handle == s[j].handle) ==>
        s[i].deadline == s[j].deadline
  }

  /** The EDF approximation, stated without `EarliestDeadline`: every occupied
      slot's handle is at the running tier when its deadline is no later than
      any other registered deadline, and at the waiting tier otherwise. */
  ghost predicate TwoTier(prio: map<Handle, Priority>, s: seq<Slot>, maxPriorities: nat)
  {
    forall i :: 0 <= i < |s| && s[i] != null ==>
      s[i].handle in prio &&
      prio[s[i].handle] ==
        if forall j :: 0 <= j < |s| && s[j] != null ==> s[i].deadline <= s[j].deadline
        then RunningPriority(maxPriorities)
        else WaitingPriority(maxPriorities)
  }

  /** The priority-set calls override `prio` with a map that depends on the
      slots alone. */
  lemma {:induction false} AssignedIsOverride(
    prio: map<Handle, Priority>, s: seq<Slot>, earliest: Tick, maxPriorities: nat)
    ensures Assigned(prio, s, earliest, maxPriorities) == prio + Assigned(map[], s, earliest, maxPriorities)
  {
    if s != [] {
      var t := s[..|s| - 1];
      AssignedIsOverride(prio, t, earliest, maxPriorities);
    }
  }

  /** Each occupied slot's handle ends up at its own tier. */
  lemma {:induction false} AssignedAt(
    prio: map<Handle, Priority>, s: seq<Slot>, earliest: Tick, maxPriorities: nat, i: nat)
    requires HandlesConsistent(s)
    requires i < |s| && s[i] != null
    ensures s[i].handle in Assigned(prio, s, earliest, maxPriorities)
    ensures Assigned(prio, s, earliest, maxPriorities)[s[i].handle] ==
      Tier(s[i].deadline, earliest, maxPriorities)
  {
    var n := |s| - 1;
    var t := s[..n];
    if s[n] == null || s[n].handle != s[i].handle {
      assert i < n;
      assert HandlesConsistent(t) by {
        forall a, b | 0 <= a < |t| && 0 <= b < |t| && t[a] != null && t[b] != null &&
          t[a].handle == t[b].handle
          ensures t[a].deadline == t[b].deadline
        {
          assert t[a] == s[a] && t[b] == s[b];
        }
      }
      AssignedAt(prio, t, earliest, maxPriorities, i);
    }
  }

  /** Handles that are not in the registry keep their priority. */
  lemma AssignedKeepsOthers(
    prio: map<Handle, Priority>, s: seq<Slot>, earliest: Tick, maxPriorities: nat, h: Handle)
    requires h !in Handles(s)
    ensures (h in Assigned(prio, s, earliest, maxPriorities)) == (h in prio)
    ensures h in prio ==> Assigned(prio, s, earliest, maxPriorities)[h] == prio[h]
  {
    AssignedIsOverride(prio, s, earliest, maxPriorities);
  }

  /** After `setTaskPriorities` every occupied slot's handle is at the running
      tier exactly when its deadline equals the earliest deadline, and at the
      waiting tier otherwise; ties are all promoted. */
  lemma RecomputedTiers(prio: map<Handle, Priority>, s: seq<Slot>, maxPriorities: nat, i: nat)
    requires HandlesConsistent(s)
    requires i < |s| && s[i] != null
    ensures s[i].handle in Recomputed(prio, s, maxPriorities)
    ensures Recomputed(prio, s, maxPriorities)[s[i].handle] == RunningPriority(maxPriorities) <==>
      s[i].deadline == EarliestDeadline(s)
    ensures s[i].deadline != EarliestDeadline(s) ==>
      Recomputed(prio, s, maxPriorities)[s[i].handle] == WaitingPriority(maxPriorities)
  {
    AssignedAt(prio, s, EarliestDeadline(s), maxPriorities, i);
  }

  /** The urgent set after `setTaskPriorities` is exactly the set of
      registered records whose deadline is minimal among registered records. */
  lemma RecomputedIsTwoTier(prio: map<Handle, Priority>, s: seq<Slot>, maxPriorities: nat)
    requires HandlesConsistent(s)
    ensures TwoTier(Recomputed(prio, s, maxPriorities), s, maxPriorities)
  {
    var e := EarliestDeadline(s);
    forall i | 0 <= i < |s| && s[i] != null
      ensures (forall j :: 0 <= j < |s| && s[j] != null ==> s[i].deadline <= s[j].deadline) <==>
        s[i].deadline == e
    {
      if forall j :: 0 <= j < |s| && s[j] != null ==> s[i].deadline <= s[j].deadline {
        var k :| 0 <= k < |s| && s[k] != null && s[k].deadline == e;
        assert s[i].deadline <= s[k].deadline;
      }
    }
    forall i | 0 <= i < |s| && s[i] != null
      ensures s[i].handle in Recomputed(prio, s, maxPriorities)
      ensures Recomputed(prio, s, maxPriorities)[s[i].handle] == Tier(s[i].deadline, e, maxPriorities)
    {
      AssignedAt(prio, s, e, maxPriorities, i);
    }
  }

  /** Handles that are not in the registry keep their priority after
      `setTaskPriorities`; in particular an empty registry assigns nothing. */
  lemma RecomputedKeepsOthers(prio: map<Handle, Priority>, s: seq<Slot>, maxPriorities: nat)
    ensures Recomputed(prio, s, maxPriorities).Keys == prio.Keys + Handles(s)
    ensures forall h :: h in prio && h !in Handles(s) ==> Recomputed(prio, s, maxPriorities)[h] == prio[h]
    ensures (forall i :: 0 <= i < |s| ==> s[i] == null) ==> Recomputed(prio, s, maxPriorities) == prio
  {
    AssignedIsOverride(prio, s, EarliestDeadline(s), maxPriorities);
  }

  /** Running `setTaskPriorities` twice with no registry change in between
      gives the same priority map as running it once. */
  lemma RecomputeIdempotent(prio: map<Handle, Priority>, s: seq<Slot>, maxPriorities: nat)
    ensures Recomputed(Recomputed(prio, s, maxPriorities), s, maxPriorities) == Recomputed(prio, s, maxPriorities)
  {
    var e := EarliestDeadline(s);
    var w := Assigned(map[], s, e, maxPriorities);
    AssignedIsOverride(prio, s, e, maxPriorities);
    AssignedIsOverride(prio + w, s, e, maxPriorities);
    assert (prio + w) + w == prio + w;
  }

  /** Because the search starts at the sentinel, records whose deadline is
      `MaxTick` (such as `portMAX_DELAY` when ticks are 32 bits wide) are at
      the running tier when no registered record has a smaller deadline. */
  lemma SentinelDeadlineIsUrgent(prio: map<Handle, Priority>, s: seq<Slot>, maxPriorities: nat, i: nat)
    requires i < |s| && s[i] != null && s[i].deadline == MaxTick
    requires forall j :: 0 <= j < |s| && s[j] != null ==> s[j].deadline == MaxTick
    ensures Recomputed(prio, s, maxPriorities)[s[i].handle] == RunningPriority(maxPriorities)
  {
    RecomputedTiers(prio, s, maxPriorities, i);
  }
}
