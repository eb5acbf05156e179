/** Setting a key and looking it up: what the value just set has to do with the value found. */
module Readback {
  import opened Words
  import opened Isa
  import opened Tables
  import opened Machine

  /** The keys before slot `k` are smaller than `id`, the others are not. */
  ghost predicate Split<V>(t: Table<V>, id: nat, k: nat) {
    && k <= |t|
    && (forall i :: 0 <= i < k ==> t[i].id < id)
    && (forall i :: k <= i < |t| ==> id <= t[i].id)
  }

  /** `k` is `n` or one of `n / 2`, `n / 4`, .., 0: the slots a pair passes on its way up from slot `n`. */
  predicate OnPath(n: nat, k: nat) { n == k || (n > 0 && OnPath(n / 2, k)) }

  lemma {:induction false} PathGoesUp(n: nat, k: nat)
    requires OnPath(n, k)
    ensures k <= n
  {
    if n != k {
      PathGoesUp(n / 2, k);
    }
  }

  // ---------------------------------------------------------------- searching a split table

  lemma {:induction false} SearchSplit<V>(t: Table<V>, lo: nat, hi: nat, id: nat, k: nat)
    requires lo <= hi < |t| && Split(t, id, k) && lo <= k
    ensures Search(t, lo, hi, id) == if k <= hi then k else hi
    decreases hi - lo
  {
    if lo < hi {
      var mid := lo + (hi - lo) / 2;
      if t[mid].id < id {
        SearchSplit(t, mid + 1, hi, id, k);
      } else {
        SearchSplit(t, lo, mid, id, k);
      }
    }
  }

  /** On a table split at the key, lookup reads the slot where it is split. */
  lemma {:induction false} FindSplit<V>(t: Table<V>, id: nat, k: nat)
    requires Split(t, id, k)
    ensures Find(t, id) == if k < |t| && t[k].id == id then Some(t[k].obj) else None
  {
    if |t| > 0 {
      SearchSplit(t, 0, |t| - 1, id, k);
    }
  }

  // ---------------------------------------------------------------- inserting into one

  /** `t` with a free slot `idx` is split at `k`, not above the slot. */
  ghost predicate SplitBut<V>(t: Table<V>, idx: nat, id: nat, k: nat) {
    && k <= idx < |t|
    && (forall i :: 0 <= i < k ==> t[i].id < id)
    && (forall i :: k <= i < |t| && i != idx ==> id <= t[i].id)
  }

  /** A key not smaller than `id` leaves the split where it was, and the pair there if it has key `id`. */
  lemma {:induction false} SiftSplit<V>(t: Table<V>, idx: nat, q: Pair<V>, id: nat, k: nat)
    requires SplitBut(t, idx, id, k) && id <= q.id
    ensures Split(Sift(t, idx, q), id, k)
    ensures k != idx && t[k].id == id ==> Sift(t, idx, q)[k] == t[k]
    decreases idx
  {
    if idx > 0 && q.id < t[idx / 2].id {
      SiftSplit(t[idx := t[idx / 2]], idx / 2, q, id, k);
    }
  }

  /** A key found at the split stays found with the same value whatever keys not smaller are inserted,
  itself included: setting a key again changes nothing. */
  lemma {:induction false} FoundStays<V>(t: Table<V>, id: nat, k: nat, ps: seq<Pair<V>>)
    requires Split(t, id, k) && k < |t| && t[k].id == id
    requires forall i :: 0 <= i < |ps| ==> id <= ps[i].id
    ensures var r := InsertAll(t, ps);
      && k < |r| && Split(r, id, k) && r[k] == t[k]
      && Find(r, id) == Find(t, id) == Some(t[k].obj)
  {
    if |ps| > 0 {
      var n := |ps| - 1;
      FoundStays(t, id, k, ps[..n]);
      var r := InsertAll(t, ps[..n]);
      SiftSplit(r + [ps[n]], |r|, ps[n], id, k);
    }
    FindSplit(t, id, k);
    FindSplit(InsertAll(t, ps), id, k);
  }

  /** Where a new key ends: at the split if that is on its path, else below it. */
  lemma {:induction false} SiftFresh<V>(t: Table<V>, idx: nat, p: Pair<V>, k: nat)
    requires SplitBut(t, idx, p.id, k)
    requires forall i :: k <= i < |t| && i != idx ==> t[i].id != p.id
    ensures Sift(t, idx, p)[k] == if OnPath(idx, k) then p else t[k]
    decreases idx
  {
    if idx > k {
      if idx / 2 >= k {
        SiftFresh(t[idx := t[idx / 2]], idx / 2, p, k);
      } else if OnPath(idx / 2, k) {
        PathGoesUp(idx / 2, k);
      }
    }
  }

  /** What a lookup finds right after the key was set to `v`, on a table split at `k`. */
  function AfterSet<V>(t: Table<V>, id: nat, v: V, k: nat): Option<V> {
    if k < |t| && t[k].id == id then Some(t[k].obj) else if OnPath(|t|, k) then Some(v) else None
  }

  lemma {:induction false} SetSplit<V>(t: Table<V>, id: nat, v: V, k: nat)
    requires Split(t, id, k) && forall i :: k < i < |t| && t[k].id != id ==> t[i].id != id
    ensures Find(Insert(t, Pair(id, v)), id) == AfterSet(t, id, v, k)
  {
    var p := Pair(id, v);
    var r := Insert(t, p);
    SiftSplit(t + [p], |t|, p, id, k);
    FindSplit(r, id, k);
    if !(k < |t| && t[k].id == id) {
      SiftFresh(t + [p], |t|, p, k);
    }
  }

  /** How many keys come before `id` in a table in key order. */
  function Rank<V>(t: Table<V>, id: nat): (k: nat)
    ensures k <= |t|
  {
    if |t| == 0 || id <= t[0].id then 0 else 1 + Rank(t[1..], id)
  }

  lemma {:induction false} RankSplits<V>(t: Table<V>, id: nat)
    requires Sorted(t)
    ensures Split(t, id, Rank(t, id))
  {
    if |t| > 0 && t[0].id < id {
      RankSplits(t[1..], id);
      var k := Rank(t[1..], id);
      forall i | 0 <= i < |t|
        ensures if i < k + 1 then t[i].id < id else id <= t[i].id
      {
        assert i > 0 ==> t[i] == t[1..][i - 1];
      }
    }
  }

  /** The exact law of setting a key in a table in key order. A key that has a value keeps it. A new key
  is found, with its value, if and only if its rank is `|t|` or one of `|t| / 2`, `|t| / 4`, .., 0;
  otherwise it cannot be found at all. */
  lemma {:induction false} SetThenGet<V>(t: Table<V>, id: nat, v: V)
    requires Sorted(t)
    ensures Find(Insert(t, Pair(id, v)), id)
            == if Find(t, id).Some? then Find(t, id) else if OnPath(|t|, Rank(t, id)) then Some(v) else None
  {
    var k := Rank(t, id);
    RankSplits(t, id);
    FindSplit(t, id, k);
    SetSplit(t, id, v, k);
  }

  /** Keys 1, 2, 4 and then 3: the key just set is not found. */
  lemma {:induction false} SetButNotFound()
    ensures var t := InsertAll([], [Pair(1, 'a'), Pair(2, 'b'), Pair(4, 'c')]);
      Sorted(t) && Find(t, 3) == None && Find(Insert(t, Pair(3, 'd')), 3) == None
  {
    var t := [Pair(1, 'a'), Pair(2, 'b'), Pair(4, 'c')];
    Ascending(t);
    assert Split(t, 3, 2);
    FindSplit(t, 3, 2);
    SetSplit(t, 3, 'd', 2);
    assert OnPath(3, 2) == OnPath(1, 2) == OnPath(0, 2) == false;
  }

  /** Keys 1, 2, 3, 2: with a key set twice the table is not in key order, and every key is found. */
  lemma {:induction false} RepeatedButFound()
    ensures var t := InsertAll([], [Pair(1, 'a'), Pair(2, 'b'), Pair(3, 'c'), Pair(2, 'd')]);
      !Sorted(t) && forall i :: 0 <= i < |t| ==> Find(t, t[i].id).Some?
  {
    hide Search, Find, Sift;
    var ps := [Pair(1, 'a'), Pair(2, 'b'), Pair(3, 'c')];
    var all := ps + [Pair(2, 'd')];
    Ascending(ps);
    assert all == [Pair(1, 'a'), Pair(2, 'b'), Pair(3, 'c'), Pair(2, 'd')];
    assert all[..3] == ps;
    SiftHere(all, 3, Pair(2, 'd'));
    assert InsertAll([], all) == Insert(ps, all[3]) == all;
    assert all[3].id < all[2].id;
    AllFound(all);
  }

  lemma {:induction false} AllFound(t: Table<char>)
    requires |t| == 4 && t[0].id == 1 && t[1].id == t[3].id == 2 && t[2].id == 3
    ensures forall i :: 0 <= i < |t| ==> Find(t, t[i].id).Some?
  {
    assert Search(t, 0, 3, 1) == Search(t, 0, 1, 1) == 0;
    assert Search(t, 0, 3, 2) == Search(t, 0, 1, 2) == 1;
    assert Search(t, 0, 3, 3) == Search(t, 2, 3, 3) == 2;
  }

  // ---------------------------------------------------------------- on any table

  /** The value in slot `i` if that has the key. */
  function AtSlot<V>(t: Table<V>, i: nat, id: nat): Option<V> {
    if i < |t| && t[i].id == id then Some(t[i].obj) else None
  }

  /** Where a pair with key `id` stops on its way up from slot `idx`. */
  function Stop<V>(t: Table<V>, idx: nat, id: nat): (d: nat)
    requires idx <= |t|
    ensures d <= idx
  {
    if idx > 0 && id < t[idx / 2].id then Stop(t, idx / 2, id) else idx
  }

  /** Where the search among one slot more than the table has will end. */
  function Ends<V>(t: Table<V>, lo: nat, hi: nat, id: nat): (e: nat)
    requires lo <= hi <= |t|
    ensures lo <= e <= hi
    decreases hi - lo
  {
    if lo == hi then lo
    else
      var mid := lo + (hi - lo) / 2;
      if t[mid].id < id then Ends(t, mid + 1, hi, id) else Ends(t, lo, mid, id)
  }

  /** What a lookup finds right after the key was set to `v`. */
  function Got<V>(t: Table<V>, id: nat, v: V): Option<V> {
    var e := Ends(t, 0, |t|, id);
    if e == Stop(t, |t|, id) then Some(v) else AtSlot(t, e, id)
  }

  /** A pair on its way up changes no slot's side of its own key, but for the slot where it stops. */
  lemma {:induction false} SiftSides<V>(t: Table<V>, s: Table<V>, idx: nat, p: Pair<V>)
    requires idx < |t| == |s| && forall i :: 0 <= i < |t| && i != idx ==> s[i] == t[i]
    ensures var r, d := Sift(s, idx, p), Stop(t, idx, p.id);
      && r[d] == p
      && forall i :: 0 <= i < |t| && i != d && i != idx ==>
           if t[i].id <= p.id then r[i] == t[i] else r[i].id > p.id
    ensures Stop(t, idx, p.id) != idx ==> Sift(s, idx, p)[idx].id > p.id
    decreases idx
  {
    hide Sift;
    var h := idx / 2;
    if idx > 0 && p.id < t[h].id {
      var s' := s[idx := s[h]];
      SiftUp(s, idx, p);
      SiftAbove(s', h, p);
      SiftSides(s', s', h, p);
      StopCong(t, s', h, p.id);
    } else {
      SiftHere(s, idx, p);
    }
  }

  lemma {:induction false} StopCong<V>(t: Table<V>, s: Table<V>, idx: nat, id: nat)
    requires idx <= |t| && idx <= |s| && forall i :: 0 <= i < idx ==> s[i] == t[i]
    ensures Stop(s, idx, id) == Stop(t, idx, id)
  {
    if idx > 0 && id < t[idx / 2].id {
      StopCong(t, s, idx / 2, id);
    }
  }

  lemma {:induction false} SearchSides<V>(t: Table<V>, r: Table<V>, lo: nat, hi: nat, id: nat)
    requires lo <= hi <= |t| < |r| && forall i :: 0 <= i < |t| ==> (r[i].id < id <==> t[i].id < id)
    ensures Search(r, lo, hi, id) == Ends(t, lo, hi, id)
    decreases hi - lo
  {
    if lo < hi {
      var mid := lo + (hi - lo) / 2;
      if t[mid].id < id {
        SearchSides(t, r, mid + 1, hi, id);
      } else {
        SearchSides(t, r, lo, mid, id);
      }
    }
  }

  lemma {:induction false} StopNotBelow<V>(t: Table<V>, idx: nat, id: nat)
    requires idx <= |t|
    ensures Stop(t, idx, id) == idx || t[Stop(t, idx, id)].id > id
  {
    if idx > 0 && id < t[idx / 2].id {
      StopNotBelow(t, idx / 2, id);
    }
  }

  /** The exact law of setting a key in any table, in key order or not: the value just set is found if and only
  if the search ends where the pair has stopped; else the slot where it ends is as it was. */
  lemma {:induction false} SetOnAny<V>(t: Table<V>, id: nat, v: V)
    ensures Find(Insert(t, Pair(id, v)), id) == Got(t, id, v)
  {
    hide Sift, Stop, Search;
    var n, p := |t|, Pair(id, v);
    var r, d, e := Insert(t, p), Stop(t, n, id), Ends(t, 0, n, id);
    SiftSides(t + [p], t + [p], n, p);
    StopCong(t, t + [p], n, id);
    StopNotBelow(t, n, id);
    forall i | 0 <= i < n
      ensures r[i].id < id <==> t[i].id < id
    {
      assert (t + [p])[i] == t[i];
    }
    SearchSides(t, r, 0, n, id);
    assert e < n ==> (t + [p])[e] == t[e];
  }

  // ---------------------------------------------------------------- staying in key order

  /** A pair inserted into a table in key order leaves it in key order: it goes behind all others, or it moves
  up from a bottom half of equal keys into a top half that has room for it. */
  predicate Room<V>(t: Table<V>, id: nat)
    decreases |t|
  {
    var n := |t|;
    n == 0 || t[n - 1].id <= id || (id < t[n / 2].id && t[n / 2].id == t[n - 1].id && Room(t[..n / 2], id))
  }

  /** A pair on its way up looks at the slots above it only. */
  lemma {:induction false} SiftLocal<V>(t: Table<V>, s: Table<V>, idx: nat, p: Pair<V>)
    requires idx < |t| && |s| == idx + 1 && t[..idx] == s[..idx]
    ensures Sift(t, idx, p) == Sift(s, idx, p) + t[idx + 1..]
    decreases idx
  {
    hide Sift;
    assert forall i :: 0 <= i < idx ==> t[i] == t[..idx][i] == s[i];
    if idx > 0 && p.id < t[idx / 2].id {
      var h := idx / 2;
      var t', s' := t[idx := t[h]], s[idx := s[h]];
      SiftUp(t, idx, p);
      SiftUp(s, idx, p);
      SiftLocal(t', t'[..h + 1], h, p);
      SiftLocal(s', t'[..h + 1], h, p);
      assert t'[h + 1..] == s'[h + 1..] + t[idx + 1..];
    } else {
      SiftHere(t, idx, p);
      SiftHere(s, idx, p);
    }
  }

  /** Inserting into the top half, behind which the bottom half moves round. */
  lemma {:induction false} InsertHalves<V>(t: Table<V>, p: Pair<V>)
    requires |t| > 0 && p.id < t[|t| / 2].id
    ensures var h := |t| / 2; Insert(t, p) == Insert(t[..h], p) + t[h + 1..] + [t[h]]
  {
    hide Sift;
    var n, h := |t|, |t| / 2;
    var u := (t + [p])[n := t[h]];
    SiftUp(t + [p], n, p);
    SiftLocal(u, t[..h] + [p], h, p);
    assert u[h + 1..] == t[h + 1..] + [t[h]];
  }

  lemma {:induction false} InsertBelow<V>(t: Table<V>, p: Pair<V>, bound: nat)
    requires p.id <= bound && forall i :: 0 <= i < |t| ==> t[i].id <= bound
    ensures forall i :: 0 <= i < |Insert(t, p)| ==> Insert(t, p)[i].id <= bound
  {
    hide Insert;
    InsertContents(t, p);
    forall i | 0 <= i < |Insert(t, p)|
      ensures Insert(t, p)[i].id <= bound
    {
      assert Insert(t, p)[i] in multiset(Insert(t, p));
    }
  }

  /** The exact condition under which setting a key, new or not, keeps a table in key order. */
  lemma {:induction false} InsertKeepsSortedIff<V>(t: Table<V>, p: Pair<V>)
    requires Sorted(t)
    ensures Sorted(Insert(t, p)) <==> Room(t, p.id)
    decreases |t|
  {
    hide Insert, Room;
    var n, h := |t|, |t| / 2;
    RoomIs(t, p.id);
    if n == 0 || t[n - 1].id <= p.id {
      SiftStays(t, p);
    } else if t[h].id <= p.id {
      StaysLast(t, p);
      assert Insert(t, p)[n - 1].id > Insert(t, p)[n].id;
    } else {
      InsertHalves(t, p);
      InsertKeepsSortedIff(t[..h], p);
      InsertBelow(t[..h], p, t[h].id);
      HalvesSorted(t, Insert(t[..h], p), h);
    }
  }

  lemma {:induction false} RoomIs<V>(t: Table<V>, id: nat)
    ensures var n := |t|;
      Room(t, id)
      <==> n == 0 || t[n - 1].id <= id || (id < t[n / 2].id && t[n / 2].id == t[n - 1].id && Room(t[..n / 2], id))
  {
  }

  lemma {:induction false} StaysLast<V>(t: Table<V>, p: Pair<V>)
    requires |t| > 0 && t[|t| / 2].id <= p.id
    ensures Insert(t, p) == t + [p]
  {
    assert (t + [p])[|t| := p] == t + [p];
  }

  lemma {:induction false} HalvesSorted<V>(t: Table<V>, top: Table<V>, h: nat)
    requires Sorted(t) && h < |t| && |top| == h + 1 && forall i :: 0 <= i < |top| ==> top[i].id <= t[h].id
    ensures Sorted(top + t[h + 1..] + [t[h]]) <==> Sorted(top) && t[h].id == t[|t| - 1].id
  {
    var n, r := |t|, top + t[h + 1..] + [t[h]];
    assert forall i :: 0 <= i < h + 1 ==> r[i] == top[i];
    assert forall i :: h + 1 <= i < n ==> r[i] == t[i];
    assert r[n] == t[h];
    if Sorted(r) && h < n - 1 {
      assert r[n - 1].id <= r[n].id;
    }
  }

  // ---------------------------------------------------------------- on the machine

  /** An instruction that sets a symbol to `v`, and one right behind it that reads the symbol. */
  ghost predicate SetAndGet(s: State, setter: byte, getter: byte, key: nat, v: Value, into: byte) {
    && s.ip + 6 < TWO64
    && (var i, j := Decode(s.mem, s.ip), Decode(s.mem, s.ip + 3);
        && i.Some? && i.value.op == setter && i.value.Size() == 3
        && j.Some? && j.value.op == getter && j.value.Size() == 3
        && ReadSymbol(s.data, Reg0(i.value)) == Some(key) && Read(s.data, Reg1(i.value)) == Some(Some(v))
        && ReadSymbol(s.data, Reg1(j.value)) == Some(key) && Reg0(j.value) == into < GENERAL_REGISTERS)
  }

  lemma {:induction false} SetLocalStep(s: State, env: Env, i: Instr<nat>, key: nat, v: Value)
    requires Decode(s.mem, s.ip) == Some(i) && i.op == SETLOCAL && i.Size() == 3 && s.ip + 3 < TWO64
    requires ReadSymbol(s.data, Reg0(i)) == Some(key) && Read(s.data, Reg1(i)) == Some(Some(v))
    ensures Step(s, env).Running?
    ensures var r := Step(s, env).s;
      && r.ip == s.ip + 3 && r.mem == s.mem && r.data == s.data && |r.frames| == |s.frames|
      && Top(r) == Top(s).(current := s.ip, locals := Insert(Top(s).locals, Pair(key, Some(v))))
  {
    hide Decode, Insert;
  }

  lemma {:induction false} GetLocalStep(s: State, env: Env, i: Instr<nat>, key: nat)
    requires Decode(s.mem, s.ip) == Some(i) && i.op == GETLOCAL && i.Size() == 3 && s.ip + 3 < TWO64
    requires ReadSymbol(s.data, Reg1(i)) == Some(key) && Reg0(i) < GENERAL_REGISTERS
    ensures var found, t := Find(Top(s).locals, key), SetTop(s, Top(s).(current := s.ip));
      if found.Some? && found.value.Some?
      then Step(s, env)
           == Running(t.(ip := s.ip + 3, data := s.data.(general := s.data.general[Reg0(i) := found.value])))
      else Step(s, env) == Climb(t.(data := RaiseNew(s.data).d))
  {
    hide Decode, Find, Climb;
    var t := SetTop(s, Top(s).(current := s.ip));
    assert SetTop(t, Top(t)).frames == t.frames;
  }

  /** What a program reads of a symbol it has just set: `Got`, which on a table in key order is the value there
  was, the new value of a new symbol with its rank on the path, or nothing. */
  ghost predicate ReadsBack(t: Table<Reg>, key: nat, v: Value, seen: Reg) {
    && seen == (match Got(t, key, Some(v)) case Some(found) => found case None => None)
    && (Sorted(t) ==>
          seen == if Find(t, key).Some? then Find(t, key).value
                  else if OnPath(|t|, Rank(t, key)) then Some(v) else None)
  }

  lemma {:induction false} SeenBack(t: Table<Reg>, key: nat, v: Value) returns (seen: Reg)
    ensures ReadsBack(t, key, v, seen)
    ensures var found := Find(Insert(t, Pair(key, Some(v))), key); seen == if found.Some? then found.value else None
  {
    hide Insert, Find, OnPath, Rank, Sorted, Got;
    SetOnAny(t, key, Some(v));
    if Sorted(t) {
      SetThenGet(t, key, Some(v));
    }
    var found := Find(Insert(t, Pair(key, Some(v))), key);
    seen := if found.Some? then found.value else None;
  }

  /** Reading a local back right after setting it, whatever the other locals: the program gets what `ReadsBack`
  says, or an exception when that is nothing, although the local has just been set. */
  lemma {:induction false} LocalReadBack(s: State, env: Env, key: nat, v: Value, into: byte)
    returns (seen: Reg)
    requires SetAndGet(s, SETLOCAL, GETLOCAL, key, v, into)
    ensures Step(s, env).Running? && ReadsBack(Top(s).locals, key, v, seen)
    ensures var s1 := Step(s, env).s;
      if seen.Some?
      then Step(s1, env).Running? && Step(s1, env).s.data == s.data.(general := s.data.general[into := seen])
           && Step(s1, env).s.ip == s.ip + 6
      else Step(s1, env) == Climb(SetTop(s1, Top(s1).(current := s1.ip)).(data := RaiseNew(s.data).d))
  {
    hide Decode, Insert, Find, Climb, Step, ReadsBack, Read, ReadSymbol;
    SetLocalStep(s, env, Decode(s.mem, s.ip).value, key, v);
    seen := SeenBack(Top(s).locals, key, v);
    GetLocalStep(Step(s, env).s, env, Decode(s.mem, s.ip + 3).value, key);
  }

  lemma {:induction false} SetGlobalStep(s: State, env: Env, i: Instr<nat>, key: nat, v: Value)
    requires Decode(s.mem, s.ip) == Some(i) && i.op == SETGLOBAL && i.Size() == 3 && s.ip + 3 < TWO64
    requires ReadSymbol(s.data, Reg0(i)) == Some(key) && Read(s.data, Reg1(i)) == Some(Some(v))
    ensures Step(s, env).Running?
    ensures var r := Step(s, env).s;
      && r.ip == s.ip + 3 && r.mem == s.mem
      && r.data == s.data.(globals := Insert(s.data.globals, Pair(key, Some(v))))
  {
    hide Decode, Insert;
  }

  lemma {:induction false} GetGlobalStep(s: State, env: Env, i: Instr<nat>, key: nat)
    requires Decode(s.mem, s.ip) == Some(i) && i.op == GETGLOBAL && i.Size() == 3 && s.ip + 3 < TWO64
    requires ReadSymbol(s.data, Reg1(i)) == Some(key) && Reg0(i) < GENERAL_REGISTERS
    ensures var found := Find(s.data.globals, key);
      && Step(s, env).Running? && Step(s, env).s.ip == s.ip + 3
      && Step(s, env).s.data
         == s.data.(general := s.data.general[Reg0(i) := if found.Some? then found.value else None])
  {
    hide Decode, Find;
  }

  /** The same for globals, where a miss leaves NULL in the register. */
  lemma {:induction false} GlobalReadBack(s: State, env: Env, key: nat, v: Value, into: byte)
    returns (seen: Reg)
    requires SetAndGet(s, SETGLOBAL, GETGLOBAL, key, v, into)
    ensures Step(s, env).Running? && ReadsBack(s.data.globals, key, v, seen)
    ensures var s1 := Step(s, env).s;
      && Step(s1, env).Running? && Step(s1, env).s.ip == s.ip + 6
      && Step(s1, env).s.data.general == s.data.general[into := seen]
  {
    hide Decode, Insert, Find, Step, ReadsBack;
    SetGlobalStep(s, env, Decode(s.mem, s.ip).value, key, v);
    seen := SeenBack(s.data.globals, key, v);
    var s1 := Step(s, env).s;
    SameReads(s.data, s1.data, Reg1(Decode(s.mem, s.ip + 3).value));
    GetGlobalStep(s1, env, Decode(s.mem, s.ip + 3).value, key);
  }

  lemma {:induction false} SameReads(d: Data, d': Data, r: byte)
    requires d'.general == d.general && d'.params == d.params
    ensures ReadSymbol(d', r) == ReadSymbol(d, r)
  {
  }

  // ---------------------------------------------------------------- tables of runs

  /** The locals of every frame and the globals are in heap order. */
  ghost predicate Heaps(s: State) {
    HeapOrdered(s.data.globals) && forall i :: 0 <= i < |s.frames| ==> HeapOrdered(s.frames[i].locals)
  }

  lemma {:induction false} ComputeKeepsHeaps(i: Instr<nat>, d: Data, locals: Table<Reg>, consts: seq<Value>)
    requires HeapOrdered(d.globals) && HeapOrdered(locals)
    ensures match Compute(i, d, locals, consts)
            case None => true
            case Some(Continue(d', locals')) => HeapOrdered(d'.globals) && HeapOrdered(locals')
            case Some(Raise(d')) => HeapOrdered(d'.globals)
  {
    hide Insert, HeapOrdered, Find, Arithmetic;
    if i.op == SETLOCAL && ReadSymbol(d, Reg0(i)).Some? && Read(d, Reg1(i)).Some? {
      InsertKeepsHeap(locals, Pair(ReadSymbol(d, Reg0(i)).value, Read(d, Reg1(i)).value));
    } else if i.op == SETGLOBAL && ReadSymbol(d, Reg0(i)).Some? && Read(d, Reg1(i)).Some? {
      InsertKeepsHeap(d.globals, Pair(ReadSymbol(d, Reg0(i)).value, Read(d, Reg1(i)).value));
    }
  }

  lemma {:induction false} NewFrameHeap(ret: u64, retReg: byte)
    ensures HeapOrdered(NewFrame(ret, retReg).locals)
  {
  }

  lemma {:induction false} ExecuteKeepsHeaps(s: State, i: Instr<nat>, env: Env)
    requires Heaps(s)
    ensures !Execute(s, i, env).Faulted? ==> Heaps(Execute(s, i, env).s)
  {
    hide Compute, HeapOrdered, Destination, Handler;
    ComputeKeepsHeaps(i, s.data, Top(s).locals, env.consts);
    forall ret: u64, reg: byte
      ensures HeapOrdered(NewFrame(ret, reg).locals)
    {
      NewFrameHeap(ret, reg);
    }
  }

  /** In every run from a state whose tables are in heap order they stay so, whatever the program sets. */
  lemma {:induction false} RunKeepsHeaps(s: State, env: Env, n: nat)
    requires Heaps(s)
    ensures !Run(s, env, n).Faulted? ==> Heaps(Run(s, env, n).s)
    decreases n
  {
    hide Step, Heaps;
    if n > 0 {
      StepKeepsHeaps(s, env);
      if Step(s, env).Running? {
        RunKeepsHeaps(Step(s, env).s, env, n - 1);
      }
    }
  }

  lemma {:induction false} StepKeepsHeaps(s: State, env: Env)
    requires Heaps(s)
    ensures !Step(s, env).Faulted? ==> Heaps(Step(s, env).s)
  {
    hide Execute, Decode, HeapOrdered, MemoryAfter;
    var t := SetTop(s, Top(s).(current := s.ip));
    var i := Decode(s.mem, s.ip);
    if i.Some? {
      ExecuteKeepsHeaps(t.(mem := MemoryAfter(t.mem, t.ip, i.value.op)), i.value, env);
    }
  }
}
