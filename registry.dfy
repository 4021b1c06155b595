/**
 The task registry of demo/edf/demo.c as values: what `addTaskToArray` and
 `removeTaskFromArray` do to the sequence of slots, and the properties of
 those two updates.
 */
module Registry {
  import opened EdfTypes

  /** The index of the first slot of `s` that holds `x` (compared by
      identity), or `|s|` when no slot does. */
  function FirstSlot(s: seq<Slot>, x: Slot): (r: nat)
    ensures r <= |s|
    ensures r < |s| ==> s[r] == x
    ensures forall j :: 0 <= j < r ==> s[j] != x
  {
    if s == [] then 0
    else if s[0] == x then 0
    else 1 + FirstSlot(s[1..], x)
  }

  /** The slots after `addTaskToArray(p)`: `p` goes into the first NULL slot,
      if there is one. */
  function Added(s: seq<Slot>, p: TaskParameters): (r: seq<Slot>)
    ensures |r| == |s|
    ensures null in s ==> p in r
    ensures null in s ==> r[FirstSlot(s, null)] == p
    ensures null !in s ==> r == s
    ensures forall j :: 0 <= j < |s| && r[j] != s[j] ==> s[j] == null && r[j] == p
    ensures forall j :: 0 <= j < |s| && r[j] != s[j] ==> forall k :: 0 <= k < j ==> s[k] != null
  {
    var i := FirstSlot(s, null);
    if i < |s| then assert s[i := p][i] == p; s[i := p] else s
  }

  /** The slots after `removeTaskFromArray(p)`: the first slot holding `p`
      becomes NULL, if there is one. */
  function Removed(s: seq<Slot>, p: TaskParameters): (r: seq<Slot>)
    ensures |r| == |s|
    ensures p !in s ==> r == s
    ensures p in s ==> null in r
    ensures p in s ==> r[FirstSlot(s, p)] == null
    ensures forall j :: 0 <= j < |s| && r[j] != s[j] ==> s[j] == p && r[j] == null
    ensures forall j :: 0 <= j < |s| && r[j] != s[j] ==> forall k :: 0 <= k < j ==> s[k] != p
  {
    var i := FirstSlot(s, p);
    if i < |s| then assert s[i := null][i] == null; s[i := null] else s
  }

  /** The number of occupied slots. */
  function Occupied(s: seq<Slot>): (r: nat)
    ensures r <= |s|
    ensures r == |s| <==> null !in s
    ensures r == 0 <==> forall j :: 0 <= j < |s| ==> s[j] == null
  {
    if s == [] then 0
    else (if s[0] != null then 1 else 0) + Occupied(s[1..])
  }

  lemma FirstSlotIs(s: seq<Slot>, x: Slot, i: nat)
    requires i < |s| && s[i] == x
    requires forall j :: 0 <= j < i ==> s[j] != x
    ensures FirstSlot(s, x) == i
  {
  }

  /** Adding into a registry with a free slot stores the record in the
      lowest-index NULL slot and leaves every other slot as it was. */
  lemma AddStoresInFirstFree(s: seq<Slot>, p: TaskParameters, i: nat)
    requires i < |s| && s[i] == null
    requires forall j :: 0 <= j < i ==> s[j] != null
    ensures Added(s, p) == s[i := p]
  {
    FirstSlotIs(s, null, i);
  }

  /** Adding into a full registry changes nothing: the record is silently
      not registered. */
  lemma AddWhenFullUnchanged(s: seq<Slot>, p: TaskParameters)
    requires null !in s
    ensures Added(s, p) == s
  {
  }

  /** Removing clears only the lowest-index slot holding the record itself. */
  lemma RemoveClearsFirstMatch(s: seq<Slot>, p: TaskParameters, i: nat)
    requires i < |s| && s[i] == p
    requires forall j :: 0 <= j < i ==> s[j] != p
    ensures Removed(s, p) == s[i := null]
  {
    FirstSlotIs(s, p, i);
  }

  /** Removing a record that is not registered changes nothing. */
  lemma RemoveAbsentUnchanged(s: seq<Slot>, p: TaskParameters)
    requires p !in s
    ensures Removed(s, p) == s
  {
  }

  /** Adding a record that is not registered into a registry with a free
      slot, then removing it, gives back exactly the original slots. */
  lemma AddThenRemoveRestores(s: seq<Slot>, p: TaskParameters)
    requires p !in s && null in s
    ensures Removed(Added(s, p), p) == s
  {
    var i := FirstSlot(s, null);
    var t := s[i := p];
    assert Added(s, p) == t;
    FirstSlotIs(t, p, i);
    assert t[i := null] == s;
  }

  /** Changing one slot changes the occupancy by what left and what came in. */
  lemma {:induction false} OccupiedUpdate(s: seq<Slot>, i: nat, x: Slot)
    requires i < |s|
    ensures Occupied(s[i := x]) ==
      Occupied(s) - (if s[i] != null then 1 else 0) + (if x != null then 1 else 0)
  {
    if i == 0 {
      assert s[i := x][1..] == s[1..];
    } else {
      assert s[i := x][1..] == s[1..][i - 1 := x];
      OccupiedUpdate(s[1..], i - 1, x);
    }
  }

  /** An add occupies one more slot exactly when a slot was free; into a full
      registry of N slots the registry stays at N occupied slots. */
  lemma AddOccupancy(s: seq<Slot>, p: TaskParameters)
    ensures Occupied(Added(s, p)) == if null in s then Occupied(s) + 1 else Occupied(s)
  {
    var i := FirstSlot(s, null);
    if i < |s| {
      OccupiedUpdate(s, i, p);
    }
  }

  /** A remove frees one slot exactly when the record was registered. */
  lemma RemoveOccupancy(s: seq<Slot>, p: TaskParameters)
    ensures Occupied(Removed(s, p)) == if p in s then Occupied(s) - 1 else Occupied(s)
  {
    var i := FirstSlot(s, p);
    if i < |s| {
      OccupiedUpdate(s, i, null);
    }
  }

  /** After an add into a registry with a free slot the record is registered,
      and every other record is registered exactly when it was before. */
  lemma AddRegisters(s: seq<Slot>, p: TaskParameters)
    requires null in s
    ensures p in Added(s, p)
    ensures forall q: TaskParameters :: q != p ==> (q in Added(s, p) <==> q in s)
  {
    var i := FirstSlot(s, null);
    var t := s[i := p];
    assert t[i] == p;
    forall q: TaskParameters | q != p
      ensures q in t <==> q in s
    {
      if q in s {
        var j :| 0 <= j < |s| && s[j] == q;
        assert t[j] == q;
      }
      if q in t {
        var j :| 0 <= j < |t| && t[j] == q;
        assert s[j] == q;
      }
    }
  }

  /** After a remove of a record registered at most once the record is no
      longer registered, and every other record is registered exactly when it
      was before. */
  lemma RemoveUnregisters(s: seq<Slot>, p: TaskParameters)
    requires multiset(s)[p] <= 1
    ensures p !in Removed(s, p)
    ensures forall q: TaskParameters :: q != p ==> (q in Removed(s, p) <==> q in s)
  {
    var i := FirstSlot(s, p);
    if i < |s| {
      var t := s[i := null];
      assert multiset(t) == multiset(s) - multiset{p} + multiset{null};
      assert multiset(t)[p] == 0;
      forall q: TaskParameters | q != p
        ensures q in t <==> q in s
      {
        if q in s {
          var j :| 0 <= j < |s| && s[j] == q;
          assert t[j] == q;
        }
        if q in t {
          var j :| 0 <= j < |t| && t[j] == q;
          assert s[j] == q;
        }
      }
    }
  }

  /** The registry does not check for duplicates: a record registered twice
      (two Created messages for it) is still registered after one remove. */
  lemma RepeatedAddLeavesStaleEntry(s: seq<Slot>, p: TaskParameters)
    requires p !in s && Occupied(s) + 2 <= |s|
    ensures p in Removed(Added(Added(s, p), p), p)
  {
    AddOccupancy(s, p);
    var i := FirstSlot(s, null);
    var t := s[i := p];
    assert Added(s, p) == t;
    assert null in t;
    var k := FirstSlot(t, null);
    var u := t[k := p];
    assert Added(t, p) == u;
    assert forall j :: 0 <= j <= i ==> t[j] != null;
    assert i < k;
    RemoveClearsFirstMatch(u, p, i);
    assert u[i := null][k] == p;
  }
}
