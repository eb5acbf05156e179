/** The pool of object references: a doubly linked list of zones and a cursor to the first free slot.

The source keeps the cursor but allocates elsewhere for now; `Take` is the allocation it describes
in a comment. */
module ZonePool {
  const ZONE_SIZE: nat := 65536

  /** `used` tells the slots whose type is not null. */
  class Zone {
    var used: seq<bool>
    var earliestFree: nat
    var prev: Zone?
    var next: Zone?

    constructor ()
      ensures AllFree(used) && earliestFree == 0 && prev == null && next == null
    {
      used := seq(ZONE_SIZE, _ => false);
      earliestFree := 0;
      prev, next := null, null;
    }

    /** All slots below the zone's mark are in use. */
    ghost predicate Marked()
      reads this
    {
      && |used| == ZONE_SIZE && earliestFree <= ZONE_SIZE
      && forall k :: 0 <= k < earliestFree ==> used[k]
    }

    /** The slot at the mark is free. */
    ghost predicate Open()
      reads this
    {
      earliestFree < |used| && !used[earliestFree]
    }
  }

  ghost predicate AllFree(s: seq<bool>) { |s| == ZONE_SIZE && forall k :: 0 <= k < |s| ==> !s[k] }

  class Pool {
    var head: Zone
    var tail: Zone
    var earliest: Zone
    ghost var zones: seq<Zone>
    ghost var at: nat
    ghost var repr: set<Zone>

    /** The list: linked both ways, no zone twice. */
    ghost predicate Listed()
      reads this, repr
    {
      && 0 < |zones| && head == zones[0] && tail == zones[|zones| - 1]
      && (forall i :: 0 <= i < |zones| ==> zones[i] in repr)
      && (forall i, j :: 0 <= i < j < |zones| ==> zones[i] != zones[j])
      && (forall i {:trigger zones[i].next} :: 0 <= i < |zones| ==>
            zones[i].next == if i + 1 < |zones| then zones[i + 1] else null)
      && (forall i {:trigger zones[i].prev} :: 0 <= i < |zones| ==>
            zones[i].prev == if i > 0 then zones[i - 1] else null)
    }

    /** Every zone is in use below its mark, and the zones before `n` are full. */
    ghost predicate FullBefore(n: nat)
      reads this, repr
    {
      && n <= |zones|
      && (forall i :: 0 <= i < |zones| ==> zones[i] in repr && zones[i].Marked())
      && (forall i :: 0 <= i < n ==> zones[i].earliestFree == ZONE_SIZE)
    }

    /** And the cursor names a free slot. */
    ghost predicate Valid()
      reads this, repr
    {
      && Listed() && at < |zones| && earliest == zones[at]
      && FullBefore(at) && zones[at].Open()
    }

    /** The slots in use, zone by zone. */
    ghost function Usage(): (s: seq<seq<bool>>)
      reads this, repr
      ensures |s| == |zones|
      ensures forall i :: 0 <= i < |s| && zones[i] in repr ==> s[i] == zones[i].used
    {
      seq(|zones|, i requires 0 <= i < |zones| reads this, repr => if zones[i] in repr then zones[i].used else [])
    }

    constructor ()
      ensures Valid() && fresh(repr)
      ensures |zones| == 1 && at == 0 && AllFree(Usage()[0])
    {
      var zone := new Zone();
      head, tail, earliest := zone, zone, zone;
      zones, at, repr := [zone], 0, {zone};
    }

    /** No free slot precedes the cursor. */
    lemma {:induction false} NoneBeforeCursor(i: nat, k: nat)
      requires Valid() && i < |zones| && k < |Usage()[i]| && !Usage()[i][k]
      ensures i > at || (i == at && k >= earliest.earliestFree)
    {
      assert zones[i].Marked();
    }

    /** What a scan needs to know of zone `j`. */
    lemma {:induction false} ZoneFacts(j: nat)
      requires Listed() && FullBefore(j) && j < |zones|
      ensures zones[j] in repr && |zones[j].used| == ZONE_SIZE && zones[j].earliestFree <= ZONE_SIZE
      ensures zones[j].next == if j + 1 < |zones| then zones[j + 1] else null
      ensures j + 1 == |zones| ==> zones[j] == tail
      ensures zones[j].earliestFree == ZONE_SIZE ==> FullBefore(j + 1)
      ensures tail in repr
    {
      assert zones[j].Marked();
    }

    lemma {:induction false} TailListed()
      requires Listed()
      ensures tail in repr
    {
      assert zones[|zones| - 1] in repr;
    }

    /** The slot at the zone's mark is in use: the mark moves up. */
    method Bump(zone: Zone, ghost j: nat)
      requires Listed() && FullBefore(j) && j < |zones| && zones[j] == zone
      requires zone.earliestFree < |zone.used| && zone.used[zone.earliestFree]
      modifies zone`earliestFree
      ensures Listed() && FullBefore(j) && zone.earliestFree == old(zone.earliestFree) + 1
      ensures Usage() == old(Usage())
    {
      zone.earliestFree := zone.earliestFree + 1;
      forall i | 0 <= i < |zones|
        ensures zones[i].Marked()
      {
        assert old(zones[i].Marked());
      }
      assert Usage() == old(Usage());
    }

    /** Scans from zone `i` on, up to the first free slot or the end of the list. */
    method Scan(start: Zone, ghost i: nat) returns (zone: Zone?, last: Zone, ghost j: nat)
      requires Listed() && i < |zones| && zones[i] == start && FullBefore(i)
      modifies repr`earliestFree
      ensures Listed() && FullBefore(j) && Usage() == old(Usage())
      ensures if zone == null then j == |zones| && last == tail else j < |zones| && zone == zones[j] && zone.Open()
    {
      hide Listed, FullBefore, Usage;
      j := i;
      zone := start;
      last := start;
      while zone != null
        invariant Listed() && FullBefore(j) && j <= |zones| && Usage() == old(Usage())
        invariant zone == if j < |zones| then zones[j] else null
        invariant j == |zones| ==> last == tail
        decreases |zones| - j, if zone == null then 0 else ZONE_SIZE - zone.earliestFree
      {
        ZoneFacts(j);
        last := zone;
        if zone.earliestFree == ZONE_SIZE {
          zone := zone.next;
          j := j + 1;
        } else if !zone.used[zone.earliestFree] {
          return;
        } else {
          Bump(zone, j);
        }
      }
    }

    /** A new zone behind `last`. */
    method NewZone(last: Zone) returns (zone: Zone)
      modifies last`next
      ensures fresh(zone) && last.next == zone && zone.prev == last && zone.next == null
      ensures AllFree(zone.used) && zone.earliestFree == 0 && zone.Marked() && zone.Open()
    {
      zone := new Zone();
      zone.prev := last;
      last.next := zone;
    }

    /** `zone` was put behind the last one, and nothing else changed. */
    twostate predicate Appended(new zone: Zone)
      reads this, repr
    {
      && head == old(head) && tail == zone && zone !in old(repr) && old(tail) in old(repr)
      && zones == old(zones) + [zone] && repr == old(repr) + {zone}
      && zone.prev == old(tail) && zone.next == null && zone.Marked()
      && (forall z :: z in old(repr) ==>
            z.prev == old(z.prev) && z.next == (if z == old(tail) then zone else old(z.next))
            && z.used == old(z.used) && z.earliestFree == old(z.earliestFree))
    }

    twostate lemma {:induction false} StillListed(new zone: Zone)
      requires old(Listed()) && Appended(zone)
      ensures Listed()
    {
    }

    twostate lemma {:induction false} StillFull(new zone: Zone)
      requires old(Listed()) && old(FullBefore(|zones|)) && Appended(zone)
      ensures FullBefore(|zones| - 1) && Usage() == old(Usage()) + [zone.used]
    {
      forall i | 0 <= i < |zones| - 1
        ensures zones[i].Marked() && zones[i].earliestFree == ZONE_SIZE
      {
        assert old(zones[i].Marked());
      }
      assert Usage() == old(Usage()) + [zone.used];
    }

    /** Links a new zone in at the end. */
    method AppendZone(last: Zone) returns (zone: Zone)
      requires Listed() && last == tail && FullBefore(|zones|)
      modifies this`tail, this`zones, this`repr, last`next
      ensures Listed() && FullBefore(|zones| - 1) && zone == zones[|zones| - 1] && zone.Open()
      ensures zones == old(zones) + [zone] && repr == old(repr) + {zone} && fresh(zone)
      ensures Usage() == old(Usage()) + [zone.used] && AllFree(zone.used)
    {
      hide AllFree, Listed, FullBefore, Usage;
      TailListed();
      zone := NewZone(last);
      tail := zone;
      zones, repr := zones + [zone], repr + {zone};
      StillListed(zone);
      StillFull(zone);
    }

    /** Moves on from a slot just taken to the next free one, adding a zone when there is none. */
    method FindNextEarliestFree(start: Zone, ghost i: nat) returns (zone: Zone, ghost j: nat)
      requires Listed() && i < |zones| && zones[i] == start && FullBefore(i)
      requires start.earliestFree < |start.used| && start.used[start.earliestFree]
      modifies this`tail, this`zones, this`repr, repr`earliestFree, repr`next
      ensures Listed() && FullBefore(j) && j < |zones| && zone == zones[j] && zone.Open()
      ensures fresh(repr - old(repr)) && old(zones) <= zones
      ensures Usage() == old(Usage()) || exists s :: AllFree(s) && Usage() == old(Usage()) + [s]
    {
      hide Listed, FullBefore, Usage, AllFree;
      ZoneFacts(i);
      Bump(start, i);
      var found, last, k := Scan(start, i);
      if found != null {
        return found, k;
      }
      TailListed();
      zone := AppendZone(last);
      j := |zones| - 1;
    }

    /** Changes one slot of zone `n`. */
    method SetSlot(zone: Zone, ghost n: nat, idx: nat, v: bool)
      requires Listed() && n < |zones| && zones[n] == zone && idx < |zone.used|
      modifies zone`used
      ensures Listed() && zone.used == old(zone.used)[idx := v]
      ensures Usage() == old(Usage())[n := old(Usage())[n][idx := v]]
    {
      zone.used := zone.used[idx := v];
      assert Usage() == old(Usage())[n := old(Usage())[n][idx := v]];
    }

    /** Puts the slot at the cursor to use. */
    method Claim()
      requires Valid()
      modifies earliest`used
      ensures Listed() && FullBefore(at)
      ensures earliest.earliestFree < |earliest.used| && earliest.used[earliest.earliestFree]
      ensures Usage() == old(Usage())[at := old(Usage())[at][earliest.earliestFree := true]]
    {
      ghost var k := earliest.earliestFree;
      SetSlot(earliest, at, earliest.earliestFree, true);
      forall i | 0 <= i < |zones|
        ensures zones[i].Marked()
      {
        assert old(zones[i].Marked());
      }
    }

    /** Takes the slot at the cursor, the first free one; nothing else changes but that a zone of free
    slots may be added. */
    method Take() returns (zone: Zone, idx: nat)
      requires Valid()
      modifies this, repr
      ensures Valid() && fresh(repr - old(repr)) && old(zones) <= zones
      ensures zone == old(earliest) && idx == old(earliest.earliestFree)
      ensures idx < |old(Usage())[old(at)]| && !old(Usage())[old(at)][idx]
      ensures var taken := old(Usage())[old(at) := old(Usage())[old(at)][idx := true]];
        Usage() == taken || exists s :: AllFree(s) && Usage() == taken + [s]
    {
      hide Listed, FullBefore, Usage, AllFree;
      CursorFacts();
      zone := earliest;
      idx := zone.earliestFree;
      Claim();
      var free, j := FindNextEarliestFree(zone, at);
      SetCursor(free, j);
    }

    method SetCursor(zone: Zone, ghost j: nat)
      requires Listed() && FullBefore(j) && j < |zones| && zones[j] == zone && zone.Open()
      modifies this`earliest, this`at
      ensures Valid() && at == j && Usage() == old(Usage())
    {
      earliest, at := zone, j;
      assert Usage() == old(Usage());
    }

    lemma {:induction false} CursorFacts()
      requires Valid()
      ensures earliest in repr && Usage()[at] == earliest.used
    {
      assert zones[at] in repr;
    }

    /** Is the pool's cursor in a later zone? */
    method CursorAfter(zone: Zone, ghost n: nat) returns (r: bool)
      requires Listed() && n < |zones| && zones[n] == zone && at < |zones| && earliest == zones[at]
      ensures r <==> n < at
    {
      var succ := zone.next;
      ghost var i := n + 1;
      while succ != null
        invariant n < i <= |zones| && succ == if i < |zones| then zones[i] else null
        invariant forall k :: n < k < i ==> zones[k] != earliest
        decreases |zones| - i
      {
        if succ == earliest {
          return true;
        }
        succ := succ.next;
        i := i + 1;
      }
      return false;
    }

    /** The zone a slot belongs to, looked for from the tail. */
    method FindZone(zone: Zone) returns (found: bool, ghost n: nat)
      requires Listed()
      ensures found <==> zone in zones
      ensures found ==> n < |zones| && zones[n] == zone
    {
      var current: Zone? := tail;
      n := 0;
      ghost var left: nat := |zones|;
      while current != null
        invariant left <= |zones| && current == if left > 0 then zones[left - 1] else null
        invariant forall k :: left <= k < |zones| ==> zones[k] != zone
        decreases left
      {
        if current == zone {
          n := left - 1;
          return true, n;
        }
        current := current.prev;
        left := left - 1;
      }
      found := false;
    }

    /** Clears a slot and lowers the zone's mark to it. */
    method Release(zone: Zone, ghost n: nat, idx: nat)
      requires Valid() && n < |zones| && zones[n] == zone && idx < ZONE_SIZE
      modifies zone`earliestFree, zone`used
      ensures Listed() && at < |zones| && earliest == zones[at]
      ensures FullBefore(if n < at then n else at) && zones[if n < at then n else at].Open()
      ensures Usage() == old(Usage())[n := old(Usage())[n][idx := false]]
    {
      assert zone.Marked();
      SetSlot(zone, n, idx, false);
      LowerMark(zone, n, idx);
      forall i | 0 <= i < |zones|
        ensures zones[i].Marked()
      {
        assert old(zones[i].Marked());
      }
    }

    /** The zone's mark is not above `idx`. */
    method LowerMark(zone: Zone, ghost n: nat, idx: nat)
      requires Listed() && n < |zones| && zones[n] == zone
      modifies zone`earliestFree
      ensures Listed() && Usage() == old(Usage())
      ensures zone.earliestFree == if idx < old(zone.earliestFree) then idx else old(zone.earliestFree)
    {
      if idx < zone.earliestFree {
        zone.earliestFree := idx;
      }
      assert Usage() == old(Usage());
    }

    /** Gives a slot back. It reports failure where the C code asserts: for a slot of no zone. */
    method Free(zone: Zone, idx: nat) returns (ok: bool, ghost n: nat)
      requires Valid() && idx < ZONE_SIZE
      modifies this`earliest, this`at, zone`earliestFree, zone`used
      ensures Valid() && (ok <==> zone in zones)
      ensures ok ==> n < |zones| && zones[n] == zone && |old(Usage())[n]| == ZONE_SIZE
      ensures Usage() == if ok then old(Usage())[n := old(Usage())[n][idx := false]] else old(Usage())
    {
      hide Listed, FullBefore, Usage;
      ok, n := FindZone(zone);
      if !ok {
        return;
      }
      ZoneSize(n);
      Release(zone, n, idx);
      var after := CursorAfter(zone, n);
      if after {
        SetCursor(zone, n);
      }
    }

    lemma {:induction false} ZoneSize(n: nat)
      requires Valid() && n < |zones|
      ensures |Usage()[n]| == ZONE_SIZE
    {
      assert zones[n].Marked();
    }
  }
}
