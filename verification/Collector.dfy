/** The mark-sweep-compact collector: a whole collection is a filter of the object space.

An entry names its object and an object remembers its entry, here by number. An entry is null once
its object is freed. */
module Collector {
  import opened Reachability

  /** What an object holds references to. */
  datatype Payload = Plain | Structure(values: seq<Ref>) | Array(items: seq<Ref>) | Exception(data: Ref)

  function Held(p: Payload): seq<Ref> {
    match p
    case Plain => []
    case Structure(values) => values
    case Array(items) => items
    case Exception(data) => [data]
  }

  class Ref {
    var payload: Payload
    var constant: bool
    var tracked: bool
    var entry: nat

    constructor (payload: Payload, constant: bool)
      ensures this.payload == payload && this.constant == constant && !tracked
    {
      this.payload, this.constant := payload, constant;
      tracked, entry := false, 0;
    }
  }

  datatype Entry = Entry(obj: Ref?, marked: bool)

  const INITIAL_HEAP_SIZE: nat := 1024

  /** The objects collection follows: tracked and not constant. */
  ghost function Followed(world: set<Ref>): (g: Graph<Ref>)
    reads world
    ensures g.Keys <= world
    ensures forall x :: x in world ==> (x in g <==> x.tracked && !x.constant)
    ensures forall x :: x in g ==> g[x] == Held(x.payload)
  {
    map x | x in world && x.tracked && !x.constant :: Held(x.payload)
  }

  /** The objects of some entries. */
  function Objects(es: seq<Entry>): (s: seq<Ref?>)
    ensures |s| == |es|
    ensures forall i :: 0 <= i < |es| ==> s[i] == es[i].obj
  {
    seq(|es|, i requires 0 <= i < |es| => es[i].obj)
  }

  /** The elements of `s` in `keep`, in order. */
  ghost function Keep(s: seq<Ref?>, keep: set<Ref>): seq<Ref?> {
    if |s| == 0 then []
    else Keep(s[..|s| - 1], keep) + (if s[|s| - 1] in keep then [s[|s| - 1]] else [])
  }

  /** The entries that are not null, in order. */
  function Used(es: seq<Entry>): seq<Entry> {
    if |es| == 0 then []
    else Used(es[..|es| - 1]) + (if es[|es| - 1].obj != null then [es[|es| - 1]] else [])
  }

  function NonNull(regs: seq<Ref?>): set<Ref> { set r: Ref | r in regs }

  function Flat(frames: seq<seq<Ref>>): set<Ref> { set f, r | f in frames && r in f :: r }

  /** Registers and stack locals: nothing else is a root. */
  function Roots(general: seq<Ref?>, args: seq<Ref?>, params: seq<Ref?>, frames: seq<seq<Ref>>): set<Ref> {
    NonNull(general) + NonNull(args) + NonNull(params) + Flat(frames)
  }

  function Members(s: seq<Ref>): set<Ref> { set x | x in s }

  class Space {
    var entries: array<Entry>
    var length: nat

    /** Entries and tracked objects of the world name each other; constants are never tracked; what
    a tracked object holds is in the world. */
    ghost predicate Consistent(world: set<Ref>)
      reads this, entries, world
    {
      && 0 < entries.Length && length <= entries.Length
      && (forall i :: 0 <= i < length ==> entries[i].obj != null)
      && (forall i :: 0 <= i < length ==>
            entries[i].obj in world && entries[i].obj.tracked && entries[i].obj.entry == i)
      && (forall x :: x in world && x.tracked ==> TrackedWell(world, x))
    }

    /** The tracked objects, in entry order. */
    ghost function Tracked(): seq<Ref?>
      reads this, entries
    {
      if length <= entries.Length then Objects(entries[..length]) else []
    }

    ghost predicate TrackedWell(world: set<Ref>, x: Ref)
      reads this, entries, x
    {
      && !x.constant && x.entry < length <= entries.Length && entries[x.entry].obj == x
      && forall k :: k in Held(x.payload) ==> k in world
    }

    /** The marked entries are those of `m`. */
    ghost predicate Marks(world: set<Ref>, m: set<Ref>)
      reads this, entries, world
    {
      forall x :: x in world && x.tracked && x.entry < entries.Length ==> (entries[x.entry].marked <==> x in m)
    }

    constructor ()
      ensures fresh(entries) && length == 0 && Consistent({})
    {
      entries := new Entry[INITIAL_HEAP_SIZE](_ => Entry(null, false));
      length := 0;
    }

    // -------------------------------------------------------------- tracking

    /** Eight times the space; the entries keep their numbers. */
    method Grow()
      requires 0 < entries.Length
      modifies this`entries
      ensures fresh(entries) && entries.Length == 8 * old(entries.Length)
      ensures forall i :: 0 <= i < old(entries.Length) ==> entries[i] == old(entries[i])
    {
      var bigger := new Entry[8 * entries.Length](_ => Entry(null, false));
      forall i | 0 <= i < entries.Length {
        bigger[i] := entries[i];
      }
      entries := bigger;
    }

    /** Starts tracking an object behind those tracked already; constants and tracked objects stay
    as they are. */
    method AddObjRef(obj: Ref, ghost world: set<Ref>)
      requires Consistent(world) && obj in world && (forall k :: k in Held(obj.payload) ==> k in world)
      modifies this, entries, obj`tracked, obj`entry
      ensures Consistent(world) && (entries == old(entries) || fresh(entries))
      ensures obj.constant || old(obj.tracked) ==>
                Tracked() == old(Tracked()) && obj.tracked == old(obj.tracked) && obj.entry == old(obj.entry)
      ensures !obj.constant && !old(obj.tracked) ==>
                Tracked() == old(Tracked()) + [obj] && obj.tracked && obj.entry == old(length)
    {
      if obj.constant || obj.tracked {
        return;
      }
      ghost var was := Tracked();
      obj.tracked := true;
      var nextId := length;
      length := length + 1;
      if nextId >= entries.Length {
        Grow();
      }
      entries[nextId] := Entry(obj, false);
      obj.entry := nextId;
      assert Tracked() == was + [obj];
      forall x | x in world && x.tracked
        ensures TrackedWell(world, x)
      {
        if x != obj {
          assert old(TrackedWell(world, x));
        }
      }
    }

    /** A new object of the program is untracked and changes nothing. */
    lemma {:induction false} NewObject(world: set<Ref>, x: Ref)
      requires Consistent(world) && !x.tracked
      ensures Consistent(world + {x})
    {
      forall y | y in world + {x} && y.tracked
        ensures TrackedWell(world + {x}, y)
      {
        assert TrackedWell(world, y);
      }
    }

    /** The space lists the tracked objects of the world, each once, and no constants. */
    lemma {:induction false} TrackedOnce(world: set<Ref>)
      requires Consistent(world)
      ensures forall i, j :: 0 <= i < j < |Tracked()| ==> Tracked()[i] != Tracked()[j]
      ensures forall x :: x in world ==> (x in Tracked() <==> x.tracked) && (x in Tracked() ==> !x.constant)
    {
      forall x | x in world
        ensures (x in Tracked() <==> x.tracked) && (x in Tracked() ==> !x.constant)
      {
        if x.tracked {
          assert TrackedWell(world, x);
          assert Tracked()[x.entry] == x;
        }
      }
    }

    // -------------------------------------------------------------- marking

    method ResetMarks(ghost world: set<Ref>)
      requires Consistent(world)
      modifies entries
      ensures Consistent(world) && Marks(world, {})
      ensures Tracked() == old(Tracked())
    {
      var id := 0;
      while id < length
        invariant id <= length
        invariant Consistent(world)
        invariant Tracked() == old(Tracked())
        invariant forall i :: 0 <= i < id ==> !entries[i].marked
      {
        entries[id] := entries[id].(marked := false);
        id := id + 1;
      }
    }

    /** Sets the mark of a tracked object's entry. */
    method MarkEntry(obj: Ref, ghost world: set<Ref>, ghost m: set<Ref>)
      requires Consistent(world) && Marks(world, m) && obj in world && obj.tracked
      modifies entries
      ensures Consistent(world) && Marks(world, m + {obj})
      ensures Tracked() == old(Tracked()) && Followed(world) == old(Followed(world))
    {
      assert TrackedWell(world, obj);
      entries[obj.entry] := entries[obj.entry].(marked := true);
      forall x | x in world && x.tracked
        ensures TrackedWell(world, x) && (entries[x.entry].marked <==> x in m + {obj})
      {
        assert old(TrackedWell(world, x));
      }
    }

    /** Is the object followed and not marked yet? */
    method ToMark(obj: Ref, ghost world: set<Ref>, ghost g: Graph<Ref>, ghost m: set<Ref>) returns (r: bool)
      requires Consistent(world) && Marks(world, m) && g == Followed(world) && obj in world
      ensures r <==> obj in g && obj !in m
      ensures r ==> obj.tracked && forall k :: k in Held(obj.payload) ==> k in world
    {
      if obj.constant || !obj.tracked {
        return false;
      }
      assert TrackedWell(world, obj);
      return !entries[obj.entry].marked;
    }

    /** Marks an object and everything reachable from it. */
    method MarkRef(obj: Ref, ghost world: set<Ref>, ghost g: Graph<Ref>,
        ghost m: set<Ref>) returns (ghost m': set<Ref>)
      requires Consistent(world) && Marks(world, m) && g == Followed(world) && obj in world && m <= g.Keys
      modifies entries
      ensures Consistent(world) && Marks(world, m') && m <= m' <= g.Keys && Explored(g, {obj}, m, m')
      ensures Tracked() == old(Tracked()) && Followed(world) == g
      ensures MarkedFields(world, obj, m, m')
      decreases |g.Keys - m|, 0, 0
    {
      hide Consistent, Marks, Explored, Followed, Tracked, MarkedFields, Held, Members;
      m' := m;
      var unmarked := ToMark(obj, world, g, m);
      if unmarked {
        MarkEntry(obj, world, m);
        Smaller(g.Keys - (m + {obj}), g.Keys - m);
        m' := MarkAll(Held(obj.payload), world, g, m + {obj});
        MarkedNode(world, g, obj, m, m');
      } else {
        NothingToDo(g, obj, m);
      }
      FieldsOfMarked(world, g, obj, m, m');
    }

    /** The values of a structure, or the elements of an array. */
    method MarkAll(kids: seq<Ref>, ghost world: set<Ref>, ghost g: Graph<Ref>,
        ghost m: set<Ref>) returns (ghost m': set<Ref>)
      requires Consistent(world) && Marks(world, m) && g == Followed(world) && m <= g.Keys
      requires forall k :: k in kids ==> k in world
      modifies entries
      ensures Consistent(world) && Marks(world, m') && m <= m' <= g.Keys && Explored(g, Members(kids), m, m')
      ensures Tracked() == old(Tracked()) && Followed(world) == g
      decreases |g.Keys - m|, 1, |kids|
    {
      hide Consistent, Marks, Explored, Followed, Tracked;
      m' := m;
      NothingExplored(g, m);
      assert Members(kids[..0]) == {};
      var idx := 0;
      while idx < |kids|
        invariant idx <= |kids|
        invariant Consistent(world) && Marks(world, m') && m <= m' <= g.Keys && Explored(g, Members(kids[..idx]), m, m')
        invariant Tracked() == old(Tracked()) && Followed(world) == g
      {
        ghost var m1 := m';
        NotLarger(g.Keys - m1, g.Keys - m);
        m' := MarkRef(kids[idx], world, g, m1);
        ExploredThen(g, Members(kids[..idx]), {kids[idx]}, m, m1, m');
        assert Members(kids[..idx + 1]) == Members(kids[..idx]) + {kids[idx]};
        idx := idx + 1;
      }
      assert kids[..|kids|] == kids;
    }

    method MarkRegisters(regs: array<Ref?>, ghost world: set<Ref>, ghost g: Graph<Ref>, ghost m: set<Ref>)
      returns (ghost m': set<Ref>)
      requires Consistent(world) && Marks(world, m) && g == Followed(world) && m <= g.Keys
      requires NonNull(regs[..]) <= world
      modifies entries
      ensures Consistent(world) && Marks(world, m') && m <= m' <= g.Keys && Explored(g, NonNull(regs[..]), m, m')
      ensures Tracked() == old(Tracked())
    {
      hide Consistent, Marks, Explored, Followed, Tracked;
      ghost var all := regs[..];
      m' := m;
      NothingExplored(g, m);
      assert NonNull(all[..0]) == {};
      var i := 0;
      while i < regs.Length
        invariant i <= regs.Length && regs[..] == all
        invariant Consistent(world) && Marks(world, m') && m <= m' <= g.Keys && Explored(g, NonNull(all[..i]), m, m')
        invariant Tracked() == old(Tracked())
      {
        NonNullMore(all, i);
        if regs[i] != null {
          var obj: Ref := regs[i];
          assert obj == all[i];
          ghost var m1 := m';
          m' := MarkRef(obj, world, g, m1);
          ExploredThen(g, NonNull(all[..i]), {obj}, m, m1, m');
        }
        i := i + 1;
      }
      assert all[..i] == all;
    }

    /** The locals of every frame, bottom up. */
    method MarkStack(frames: seq<seq<Ref>>, ghost world: set<Ref>, ghost g: Graph<Ref>, ghost m: set<Ref>)
      returns (ghost m': set<Ref>)
      requires Consistent(world) && Marks(world, m) && g == Followed(world) && m <= g.Keys
      requires Flat(frames) <= world
      modifies entries
      ensures Consistent(world) && Marks(world, m') && m <= m' <= g.Keys && Explored(g, Flat(frames), m, m')
      ensures Tracked() == old(Tracked())
    {
      hide Consistent, Marks, Explored, Followed, Tracked;
      m' := m;
      NothingExplored(g, m);
      assert Flat(frames[..0]) == {};
      var i := 0;
      while i < |frames|
        invariant i <= |frames|
        invariant Consistent(world) && Marks(world, m') && m <= m' <= g.Keys && Explored(g, Flat(frames[..i]), m, m')
        invariant Tracked() == old(Tracked())
      {
        ghost var m1 := m';
        FlatMore(frames, i);
        m' := MarkAll(frames[i], world, g, m1);
        ExploredThen(g, Flat(frames[..i]), Members(frames[i]), m, m1, m');
        i := i + 1;
      }
      assert frames[..|frames|] == frames;
    }

    // -------------------------------------------------------------- sweeping

    /** Frees the objects of the entries that are not marked. */
    method Sweep() returns (freed: seq<Ref?>)
      requires length <= entries.Length
      modifies entries
      ensures entries[..length] == Swept(old(entries[..length])) && freed == Garbage(old(entries[..length]))
    {
      freed := [];
      ghost var was := entries[..length];
      var id := 0;
      while id < length
        invariant id <= length <= entries.Length && |was| == length
        invariant freed == Garbage(was[..id])
        invariant forall i :: 0 <= i < id ==> entries[i] == Swept(was)[i]
        invariant forall i :: id <= i < length ==> entries[i] == was[i]
      {
        assert was[..id + 1][..id] == was[..id];
        if !entries[id].marked {
          freed := freed + [entries[id].obj];
          entries[id] := entries[id].(obj := null);
        }
        id := id + 1;
      }
      assert was[..id] == was;
    }

    // -------------------------------------------------------------- compaction

    method FindNextFree(start: nat) returns (idx: nat)
      requires start <= length <= entries.Length
      ensures start <= idx <= length && (idx < length ==> entries[idx].obj == null)
      ensures forall i :: start <= i < idx ==> entries[i].obj != null
    {
      idx := start;
      while idx < length && entries[idx].obj != null
        invariant start <= idx <= length
        invariant forall i :: start <= i < idx ==> entries[i].obj != null
      {
        idx := idx + 1;
      }
    }

    method HasUsedAfter(free: nat) returns (used: nat, found: bool)
      requires length <= entries.Length
      ensures found ==> free < used < length && entries[used].obj != null
      ensures found ==> forall i :: free < i < used ==> entries[i].obj == null
      ensures !found ==> forall i :: free < i < length ==> entries[i].obj == null
    {
      used, found := 0, false;
      var idx := free + 1;
      while idx < length
        invariant free < idx
        invariant forall i :: free < i < idx && i < length ==> entries[i].obj == null
      {
        if entries[idx].obj != null {
          return idx, true;
        }
        idx := idx + 1;
      }
    }

    /** Every used entry's object names the entry. */
    ghost predicate BackRefs(world: set<Ref>)
      reads this, entries, world
    {
      && length <= entries.Length
      && forall i :: 0 <= i < length && entries[i].obj != null ==> entries[i].obj in world && entries[i].obj.entry == i
    }

    /** Moves a used entry down to a free one. */
    method RelocateEntry(free: nat, used: nat, ghost world: set<Ref>)
      requires BackRefs(world) && free < used < length
      requires entries[free].obj == null && entries[used].obj != null
      modifies entries, world`entry
      ensures BackRefs(world)
      ensures var was := old(entries[..length]);
        entries[..length] == was[free := was[used]][used := was[used].(obj := null)]
    {
      entries[free] := entries[used];
      entries[used] := entries[used].(obj := null);
      entries[free].obj.entry := free;
    }

    /** Slides the used entries down over the null ones. */
    method Compact(ghost world: set<Ref>)
      requires BackRefs(world)
      modifies this`length, entries, world`entry
      ensures BackRefs(world)
      ensures entries[..length] == Used(old(entries[..length]))
    {
      hide Used;
      ghost var was := entries[..length];
      var free := FindNextFree(0);
      var used, found := HasUsedAfter(free);
      while found
        invariant free <= length <= entries.Length && length == old(length)
        invariant forall i :: 0 <= i < free ==> entries[i].obj != null
        invariant free < length ==> entries[free].obj == null
        invariant found ==> free < used < length && entries[used].obj != null
        invariant found ==> forall i :: free < i < used ==> entries[i].obj == null
        invariant !found ==> forall i :: free < i < length ==> entries[i].obj == null
        invariant BackRefs(world)
        invariant Used(entries[..length]) == Used(was)
        decreases length - free, found
      {
        UsedMove(entries[..length], free, used);
        RelocateEntry(free, used, world);
        free := FindNextFree(free + 1);
        used, found := HasUsedAfter(free);
      }
      UsedPrefix(entries[..length], free);
      length := free;
    }

    // -------------------------------------------------------------- a whole collection

    /** Marks everything reachable from the registers and the stack, and nothing else. */
    method MarkReachable(general: array<Ref?>, args: array<Ref?>, params: array<Ref?>, frames: seq<seq<Ref>>,
                         ghost world: set<Ref>)
      returns (ghost live: set<Ref>)
      requires Consistent(world) && Marks(world, {}) && Roots(general[..], args[..], params[..], frames) <= world
      modifies entries
      ensures Consistent(world) && Marks(world, live) && Tracked() == old(Tracked())
      ensures Explored(Followed(world), Roots(general[..], args[..], params[..], frames), {}, live)
    {
      hide Consistent, Marks, Explored, Followed, Tracked;
      ghost var g := Followed(world);
      ghost var a, b, c, d := NonNull(general[..]), NonNull(args[..]), NonNull(params[..]), Flat(frames);
      ghost var m1 := MarkRegisters(general, world, g, {});
      ghost var m2 := MarkRegisters(args, world, g, m1);
      ghost var m3 := MarkRegisters(params, world, g, m2);
      live := MarkStack(frames, world, g, m3);
      ExploredThen(g, a, b, {}, m1, m2);
      ExploredThen(g, a + b, c, {}, m2, m3);
      ExploredThen(g, a + b + c, d, {}, m3, live);
    }

    /** Everything the sweep needs to know about the marks. */
    method Mark(general: array<Ref?>, args: array<Ref?>, params: array<Ref?>, frames: seq<seq<Ref>>,
        ghost world: set<Ref>)
      returns (ghost live: set<Ref>)
      requires Consistent(world) && Roots(general[..], args[..], params[..], frames) <= world
      modifies entries
      ensures Consistent(world) && 0 < entries.Length && length <= entries.Length
      ensures Tracked() == old(Tracked()) == Objects(entries[..length])
      ensures Listed(entries[..length], Followed(world), live)
      ensures forall i :: 0 <= i < length ==> entries[i].obj in world && entries[i].obj.entry == i
      ensures LiveIs(Followed(world), Roots(general[..], args[..], params[..], frames), live, world)
      ensures forall x :: x in world && x.tracked ==>
                x in Followed(world) && forall k :: k in Followed(world)[x] ==> k in world
    {
      hide Explored, Followed, Objects, Listed, LiveIs;
      ghost var g, roots := Followed(world), Roots(general[..], args[..], params[..], frames);
      ResetMarks(world);
      live := MarkReachable(general, args, params, frames, world);
      EntriesMarked(world, g, live);
      ExploredLive(g, roots, live, world);
    }

    /** A whole collection: what remains is the reachable objects in their old order, each naming its
    new entry, and exactly the others were freed. */
    method Run(general: array<Ref?>, args: array<Ref?>, params: array<Ref?>, frames: seq<seq<Ref>>,
        ghost world: set<Ref>)
      returns (freed: seq<Ref?>, ghost live: set<Ref>)
      requires Consistent(world) && Roots(general[..], args[..], params[..], frames) <= world
      modifies this`length, entries, world`entry
      ensures forall x :: x in world ==>
                (x in live
                 <==> Reachable(old(Followed(world)),
                                Roots(old(general[..]), old(args[..]), old(params[..]), frames), x))
      ensures Tracked() == Keep(old(Tracked()), live)
      ensures freed == Keep(old(Tracked()), world - live)
      ensures Consistent(world - NonNull(freed))
      ensures Roots(general[..], args[..], params[..], frames) !! NonNull(freed)
      ensures LiveFields(world, old(general[..]), old(args[..]), old(params[..]), frames, live)
    {
      hide Keep, Used, Garbage, Swept, Objects, Followed, Listed, Consistent, Reachable, LiveFields;
      ghost var g, roots := Followed(world), Roots(general[..], args[..], params[..], frames);
      live := Mark(general, args, params, frames, world);
      ghost var es := entries[..length];
      ListedParts(es, g, live);
      freed := Sweep();
      SweptBackRefs(world, es);
      Compact(world);
      SameGraph(world, g);
      SweptIsKept(es, live, world);
      StillConsistent(world, g, live, es, freed);
      RootsKept(roots, world, g, live, es, freed);
      FieldsOfLive(world, g, general[..], args[..], params[..], frames, live);
    }

    /** The entries list the followed objects, and mark the live ones. */
    lemma {:induction false} EntriesMarked(world: set<Ref>, g: Graph<Ref>, live: set<Ref>)
      requires Consistent(world) && Marks(world, live) && g == Followed(world)
      ensures Listed(entries[..length], g, live)
      ensures forall i :: 0 <= i < length ==> entries[i].obj in world && entries[i].obj.entry == i
      ensures forall x :: x in world && x.tracked ==> x in g && forall k :: k in g[x] ==> k in world
    {
      forall x | x in g
        ensures x in Objects(entries[..length])
      {
        assert TrackedWell(world, x);
        assert Objects(entries[..length])[x.entry] == x;
      }
      forall x | x in world && x.tracked
        ensures x in g && forall k :: k in g[x] ==> k in world
      {
        assert TrackedWell(world, x);
      }
    }

    lemma {:induction false} SweptBackRefs(world: set<Ref>, es: seq<Entry>)
      requires length <= entries.Length && entries[..length] == Swept(es)
      requires forall i :: 0 <= i < |es| ==> es[i].obj != null && es[i].obj in world && es[i].obj.entry == i
      ensures BackRefs(world)
    {
      forall i | 0 <= i < length && entries[i].obj != null
        ensures entries[i].obj in world && entries[i].obj.entry == i
      {
        assert entries[i] == Swept(es)[i];
      }
    }

    lemma {:induction false} StillConsistent(world: set<Ref>, g: Graph<Ref>, live: set<Ref>, es: seq<Entry>,
        freed: seq<Ref?>)
      requires BackRefs(world) && 0 < entries.Length && Tracked() == Keep(Objects(es), live)
      requires freed == Keep(Objects(es), world - live)
      requires Listed(es, g, live) && g == Followed(world)
      requires forall x :: x in live ==> x in g && Reachability.Done(g, live, x)
      requires forall x :: x in world && x.tracked ==> x in g && forall k :: k in g[x] ==> k in world
      ensures Consistent(world - NonNull(freed))
    {
      hide Keep, Objects;
      var rest := world - NonNull(freed);
      forall i | 0 <= i < length
        ensures entries[i].obj != null && entries[i].obj in rest && entries[i].obj.tracked && entries[i].obj.entry == i
      {
        assert entries[i].obj == Tracked()[i];
        KeepMember(Objects(es), live, entries[i].obj);
        KeepMember(Objects(es), world - live, entries[i].obj);
      }
      forall x | x in rest && x.tracked
        ensures TrackedWell(rest, x)
      {
        KeepMember(Objects(es), world - live, x);
        KeepMember(Objects(es), live, x);
        var i :| 0 <= i < |Tracked()| && Tracked()[i] == x;
        assert entries[i].obj == x;
        forall k | k in g[x]
          ensures k in rest
        {
          KeepMember(Objects(es), world - live, k);
        }
      }
    }
  }

  /** The entries name exactly the followed objects, and the marked ones exactly `live`. */
  ghost predicate Listed(es: seq<Entry>, g: Graph<Ref>, live: set<Ref>) {
    && (forall i :: 0 <= i < |es| ==> es[i].obj != null)
    && (forall i :: 0 <= i < |es| ==> es[i].obj in g && (es[i].marked <==> es[i].obj in live))
    && (forall x :: x in g ==> x in Objects(es))
  }

  lemma {:induction false} ListedParts(es: seq<Entry>, g: Graph<Ref>, live: set<Ref>)
    requires Listed(es, g, live)
    ensures forall i :: 0 <= i < |es| ==> es[i].obj != null && (es[i].marked <==> es[i].obj in live)
  {
  }

  /** `live` is what is reachable, so it is closed and holds the followed roots. */
  ghost predicate LiveIs(g: Graph<Ref>, roots: set<Ref>, live: set<Ref>, world: set<Ref>) {
    && (forall x :: x in live ==> x in g && Reachability.Done(g, live, x))
    && (forall x :: x in world ==> (x in live <==> Reachable(g, roots, x)))
    && (forall x :: x in roots && x in g ==> x in live)
  }

  lemma {:induction false} ExploredLive(g: Graph<Ref>, roots: set<Ref>, live: set<Ref>, world: set<Ref>)
    requires Explored(g, roots, {}, live)
    ensures LiveIs(g, roots, live, world)
  {
    hide Reachable;
    forall x | x in world
      ensures x in live <==> Reachable(g, roots, x)
    {
      ExploredExactly(g, roots, live, x);
    }
  }

  // ---------------------------------------------------------------- field by field

  /** The values of a structure, the elements of an array and the data of an exception in `xs` are in `m`, as far as
  they are followed. */
  ghost predicate MarkedThrough(world: set<Ref>, xs: set<Ref>, m: set<Ref>)
    reads world
  {
    forall x :: x in xs && x in world ==>
      match x.payload
      case Plain => true
      case Structure(values) => forall v :: v in values && v in world && v.tracked && !v.constant ==> v in m
      case Array(items) => forall v :: v in items && v in world && v.tracked && !v.constant ==> v in m
      case Exception(data) => data in world && data.tracked && !data.constant ==> data in m
  }

  /** `x` is a value, an element or the data of an object in `xs`. */
  ghost predicate NamedIn(world: set<Ref>, xs: set<Ref>, x: Ref)
    reads world
  {
    exists y :: y in xs && y in world
                && ((y.payload.Structure? && x in y.payload.values) || (y.payload.Array? && x in y.payload.items)
                    || (y.payload.Exception? && x == y.payload.data))
  }

  lemma {:induction false} HeldNames(y: Ref, x: Ref)
    ensures x in Held(y.payload)
            <==> (y.payload.Structure? && x in y.payload.values) || (y.payload.Array? && x in y.payload.items)
                 || (y.payload.Exception? && x == y.payload.data)
  {
  }

  lemma {:induction false} MarkedNode(world: set<Ref>, g: Graph<Ref>, obj: Ref, m: set<Ref>, m': set<Ref>)
    requires g == Followed(world) && obj in g && obj !in m && m <= g.Keys
    requires Explored(g, Members(Held(obj.payload)), m + {obj}, m')
    ensures Explored(g, {obj}, m, m')
  {
    hide Explored;
    ExploredNode(g, obj, Members(Held(obj.payload)), m, m');
  }

  lemma {:induction false} FieldsOfMarked(world: set<Ref>, g: Graph<Ref>, obj: Ref, m: set<Ref>, m': set<Ref>)
    requires g == Followed(world) && obj in world && Explored(g, {obj}, m, m')
    ensures MarkedFields(world, obj, m, m')
  {
    hide Reachable;
    forall x, v | x in m' - m && v in world && v.tracked && !v.constant && v in Held(x.payload)
      ensures v in m'
    {
      assert Reachability.Done(g, m', x);
      assert v in g[x] && v in g;
    }
    ThroughHeld(world, m' - m, m');
    forall x | x in m' - m && x != obj
      ensures NamedIn(world, m' - m, x)
    {
      assert Found(g, {obj}, m' - m, x);
      var y :| y in m' - m && y in g && x in g[y];
      HeldNames(y, x);
    }
  }

  lemma {:induction false} ThroughHeld(world: set<Ref>, xs: set<Ref>, m: set<Ref>)
    requires forall x, v :: x in xs && v in world && v.tracked && !v.constant && v in Held(x.payload) ==> v in m
    ensures MarkedThrough(world, xs, m)
  {
  }

  /** Marking from an object marks it, marks through what it marks, and marks nothing else. */
  ghost predicate MarkedFields(world: set<Ref>, obj: Ref, m: set<Ref>, m': set<Ref>)
    reads world, obj
  {
    && (obj.tracked && !obj.constant ==> obj in m')
    && MarkedThrough(world, m' - m, m')
    && forall x :: x in m' - m ==> x == obj || NamedIn(world, m' - m, x)
  }

  /** `x` is in a register or a frame's local. */
  ghost predicate InUse(general: seq<Ref?>, args: seq<Ref?>, params: seq<Ref?>, frames: seq<seq<Ref>>, x: Ref) {
    x in general || x in args || x in params || exists f :: f in frames && x in f
  }

  /** The followed objects in use are live, everything followed that a live object names is live, and nothing else. */
  ghost predicate LiveFields(world: set<Ref>, general: seq<Ref?>, args: seq<Ref?>, params: seq<Ref?>,
                             frames: seq<seq<Ref>>, live: set<Ref>)
    reads world
  {
    && (forall x :: x in world && InUse(general, args, params, frames, x) && x.tracked && !x.constant ==> x in live)
    && MarkedThrough(world, live, live)
    && forall x :: x in live ==>
         x in world && x.tracked && !x.constant && (InUse(general, args, params, frames, x) || NamedIn(world, live, x))
  }

  lemma {:induction false} FieldsOfLive(world: set<Ref>, g: Graph<Ref>, general: seq<Ref?>, args: seq<Ref?>,
      params: seq<Ref?>, frames: seq<seq<Ref>>, live: set<Ref>)
    requires g == Followed(world) && LiveIs(g, Roots(general, args, params, frames), live, world)
    ensures LiveFields(world, general, args, params, frames, live)
  {
    hide Roots, InUse;
    var roots := Roots(general, args, params, frames);
    forall x: Ref
      ensures x in roots <==> InUse(general, args, params, frames, x)
    {
      RootsInUse(general, args, params, frames, x);
    }
    forall x, v | x in live && v in world && v.tracked && !v.constant && v in Held(x.payload)
      ensures v in live
    {
      assert Reachability.Done(g, live, x);
      assert v in g[x] && v in g;
    }
    ThroughHeld(world, live, live);
    forall x | x in live && x !in roots
      ensures NamedIn(world, live, x)
    {
      var n: nat :| Within(g, roots, x, n);
      var y :| y in g && x in g[y] && Within(g, roots, y, n - 1);
      assert y in live;
      HeldNames(y, x);
    }
  }

  lemma {:induction false} RootsInUse(general: seq<Ref?>, args: seq<Ref?>, params: seq<Ref?>, frames: seq<seq<Ref>>,
      x: Ref)
    ensures x in Roots(general, args, params, frames) <==> InUse(general, args, params, frames, x)
  {
  }

  /** What is live is the least: any set that has the followed roots and, with an object, what it names, has all
  of it. */
  lemma {:induction false} LiveIsLeast(world: set<Ref>, roots: set<Ref>, c: set<Ref>, x: Ref)
    requires (forall r :: r in roots && r in world && r.tracked && !r.constant ==> r in c) && MarkedThrough(world, c, c)
    requires x in world && Reachable(Followed(world), roots, x)
    ensures x in c
  {
    var n: nat :| Within(Followed(world), roots, x, n);
    LeastWithin(world, roots, c, x, n);
  }

  lemma {:induction false} LeastWithin(world: set<Ref>, roots: set<Ref>, c: set<Ref>, x: Ref, n: nat)
    requires (forall r :: r in roots && r in world && r.tracked && !r.constant ==> r in c) && MarkedThrough(world, c, c)
    requires Within(Followed(world), roots, x, n)
    ensures x in c
    decreases n
  {
    if x !in roots {
      var g := Followed(world);
      var y :| y in g && x in g[y] && Within(g, roots, y, n - 1);
      LeastWithin(world, roots, c, y, n - 1);
      HeldNames(y, x);
    }
  }

  lemma {:induction false} SameGraph(world: set<Ref>, g: Graph<Ref>)
    requires g.Keys <= world
    requires forall x :: x in world ==> (x in g <==> x.tracked && !x.constant)
    requires forall x :: x in g ==> g[x] == Held(x.payload)
    ensures Followed(world) == g
  {
  }

  lemma {:induction false} KeepMember(s: seq<Ref?>, keep: set<Ref>, x: Ref?)
    ensures x in Keep(s, keep) <==> x in s && x in keep
  {
    if |s| > 0 {
      KeepMember(s[..|s| - 1], keep, x);
      assert s == s[..|s| - 1] + [s[|s| - 1]];
    }
  }

  /** Freeing the unmarked and closing the gaps filters the entries. */
  lemma {:induction false} SweptIsKept(es: seq<Entry>, live: set<Ref>, world: set<Ref>)
    requires forall i :: 0 <= i < |es| ==>
               es[i].obj != null && es[i].obj in world && (es[i].marked <==> es[i].obj in live)
    ensures Objects(Used(Swept(es))) == Keep(Objects(es), live)
    ensures Garbage(es) == Keep(Objects(es), world - live)
  {
    if |es| > 0 {
      var n := |es| - 1;
      SweptIsKept(es[..n], live, world);
      assert Objects(es)[..n] == Objects(es[..n]);
      assert Swept(es)[..n] == Swept(es[..n]);
    }
  }

  lemma {:induction false} RootsKept(roots: set<Ref>, world: set<Ref>, g: Graph<Ref>, live: set<Ref>,
      es: seq<Entry>, freed: seq<Ref?>)
    requires Listed(es, g, live) && freed == Keep(Objects(es), world - live)
    requires forall x :: x in roots && x in g ==> x in live
    ensures roots !! NonNull(freed)
  {
    hide Keep;
    forall x | x in roots
      ensures x !in NonNull(freed)
    {
      KeepMember(Objects(es), world - live, x);
    }
  }

  lemma {:induction false} NothingToDo(g: Graph<Ref>, x: Ref, m: set<Ref>)
    requires m <= g.Keys && (x !in g || x in m)
    ensures Explored(g, {x}, m, m)
  {
  }

  lemma {:induction false} Smaller<T>(a: set<T>, b: set<T>)
    requires a < b
    ensures |a| < |b|
  {
    var x :| x in b && x !in a;
    NotLarger(a, b - {x});
  }

  lemma {:induction false} NotLarger<T>(a: set<T>, b: set<T>)
    requires a <= b
    ensures |a| <= |b|
  {
    if a != {} {
      var x :| x in a;
      NotLarger(a - {x}, b - {x});
    }
  }

  lemma {:induction false} NonNullMore(regs: seq<Ref?>, i: nat)
    requires i < |regs|
    ensures NonNull(regs[..i + 1]) == if regs[i] == null then NonNull(regs[..i]) else NonNull(regs[..i]) + {regs[i]}
  {
    assert regs[..i + 1] == regs[..i] + [regs[i]];
  }

  lemma {:induction false} FlatMore(frames: seq<seq<Ref>>, i: nat)
    requires i < |frames|
    ensures Flat(frames[..i + 1]) == Flat(frames[..i]) + Members(frames[i])
    ensures forall k :: k in frames[i] ==> k in Flat(frames)
  {
    assert frames[..i + 1] == frames[..i] + [frames[i]];
  }

  // ---------------------------------------------------------------- entries as a sequence

  /** Unmarked entries become null. */
  function Swept(es: seq<Entry>): (r: seq<Entry>)
    ensures |r| == |es|
    ensures forall i :: 0 <= i < |es| ==> r[i] == if es[i].marked then es[i] else es[i].(obj := null)
  {
    seq(|es|, i requires 0 <= i < |es| => if es[i].marked then es[i] else es[i].(obj := null))
  }

  /** The objects of the unmarked entries, in order. */
  function Garbage(es: seq<Entry>): seq<Ref?> {
    if |es| == 0 then []
    else Garbage(es[..|es| - 1]) + (if es[|es| - 1].marked then [] else [es[|es| - 1].obj])
  }

  lemma {:induction false} UsedConcat(a: seq<Entry>, b: seq<Entry>)
    ensures Used(a + b) == Used(a) + Used(b)
  {
    if |b| == 0 {
      assert a + b == a;
    } else {
      UsedConcat(a, b[..|b| - 1]);
      assert (a + b)[..|a + b| - 1] == a + b[..|b| - 1];
    }
  }

  lemma {:induction false} UsedNone(es: seq<Entry>)
    requires forall i :: 0 <= i < |es| ==> es[i].obj == null
    ensures Used(es) == []
  {
    if |es| > 0 {
      UsedNone(es[..|es| - 1]);
    }
  }

  lemma {:induction false} UsedAll(es: seq<Entry>)
    requires forall i :: 0 <= i < |es| ==> es[i].obj != null
    ensures Used(es) == es
  {
    if |es| > 0 {
      UsedAll(es[..|es| - 1]);
    }
  }

  /** Moving a used entry down over null ones keeps the used entries and their order. */
  lemma {:induction false} UsedMove(es: seq<Entry>, free: nat, used: nat)
    requires free < used < |es| && es[free].obj == null && es[used].obj != null
    requires forall i :: free < i < used ==> es[i].obj == null
    ensures Used(es[free := es[used]][used := es[used].(obj := null)]) == Used(es)
  {
    hide Used;
    var r := es[free := es[used]][used := es[used].(obj := null)];
    var mid, mid' := es[free..used + 1], r[free..used + 1];
    assert es == es[..free] + mid + es[used + 1..];
    assert r == es[..free] + mid' + es[used + 1..];
    UsedConcat(es[..free] + mid, es[used + 1..]);
    UsedConcat(es[..free] + mid', es[used + 1..]);
    UsedConcat(es[..free], mid);
    UsedConcat(es[..free], mid');
    UsedOne(mid, used - free);
    UsedOne(mid', 0);
  }

  lemma {:induction false} UsedOne(es: seq<Entry>, k: nat)
    requires k < |es| && forall i :: 0 <= i < |es| ==> (es[i].obj != null <==> i == k)
    ensures Used(es) == [es[k]]
  {
    assert es == es[..k] + [es[k]] + es[k + 1..];
    UsedConcat(es[..k] + [es[k]], es[k + 1..]);
    UsedConcat(es[..k], [es[k]]);
    UsedNone(es[..k]);
    UsedNone(es[k + 1..]);
  }

  lemma {:induction false} UsedPrefix(es: seq<Entry>, n: nat)
    requires n <= |es|
    requires forall i :: 0 <= i < |es| ==> (es[i].obj != null <==> i < n)
    ensures Used(es) == es[..n]
  {
    assert es == es[..n] + es[n..];
    UsedConcat(es[..n], es[n..]);
    UsedAll(es[..n]);
    UsedNone(es[n..]);
  }
}
