/** The symbol store: strings interned as small positive numbers. */
module Symbols {
  import opened Words

  // ---------------------------------------------------------------- as a list of names

  function IndexOf(names: seq<string>, value: string): (r: Option<nat>)
    ensures r.Some? ==> r.value < |names| && names[r.value] == value
    ensures r.Some? <==> value in names
  {
    if |names| == 0 then None
    else if names[0] == value then Some(0)
    else
      match IndexOf(names[1..], value)
      case Some(i) => Some(i + 1)
      case None => None
  }

  /** The names once `value` has been looked up or added. */
  function Intern(names: seq<string>, value: string): (r: seq<string>)
    ensures value in r && names <= r
  {
    if value in names then names else names + [value]
  }

  /** Numbers start at 1. */
  function IdOf(names: seq<string>, value: string): nat {
    match IndexOf(names, value)
    case Some(i) => i + 1
    case None => 0
  }

  function NameOf(names: seq<string>, id: nat): Option<string> {
    if 1 <= id <= |names| then Some(names[id - 1]) else None
  }

  ghost predicate Distinct(names: seq<string>) {
    forall i, j :: 0 <= i < j < |names| ==> names[i] != names[j]
  }

  lemma {:induction false} IndexIs(names: seq<string>, i: nat)
    requires Distinct(names) && i < |names|
    ensures IndexOf(names, names[i]) == Some(i)
  {
    if i > 0 {
      assert names[1..][i - 1] == names[i];
      IndexIs(names[1..], i - 1);
    }
  }

  /** Interning never gives two strings one number, is undone by `NameOf`, and is stable. */
  lemma {:induction false} InternProperties(names: seq<string>, value: string, other: string)
    requires Distinct(names)
    ensures var r := Intern(names, value);
      && Distinct(r)
      && NameOf(r, IdOf(r, value)) == Some(value)
      && (other in r ==> (IdOf(r, other) == IdOf(r, value) <==> other == value))
      && (other in names ==> IdOf(r, other) == IdOf(names, other))
      && (value !in names ==> IdOf(r, value) == |names| + 1)
  {
    var r := Intern(names, value);
    if other in names {
      IndexStable(names, r, other);
    }
    if value !in names {
      IndexIs(r, |names|);
    }
  }

  /** A number once given stays, whatever is added later. */
  lemma {:induction false} IndexStable(names: seq<string>, later: seq<string>, value: string)
    requires names <= later && value in names
    ensures IdOf(later, value) == IdOf(names, value)
  {
    if names[0] != value {
      IndexStable(names[1..], later[1..], value);
    }
  }

  // ---------------------------------------------------------------- the store itself

  datatype Entry = Entry(id: nat, value: string)

  const INITIAL_SIZE: nat := 128

  class SymbolStore {
    var symbols: array<Entry>
    var nextId: nat

    /** Slot `i` holds entry number `i`; slot 0 is not used. */
    ghost predicate Valid()
      reads this, symbols
    {
      && 1 <= nextId <= symbols.Length - 1
      && (forall i :: 1 <= i < nextId ==> symbols[i].id == i)
      && Distinct(Names())
    }

    ghost function Names(): (s: seq<string>)
      reads this, symbols
      ensures 1 <= nextId <= symbols.Length ==>
                |s| == nextId - 1 && forall i :: 0 <= i < |s| ==> s[i] == symbols[i + 1].value
    {
      if 1 <= nextId <= symbols.Length then
        seq(nextId - 1, i requires 0 <= i < nextId - 1 reads this, symbols requires nextId <= symbols.Length =>
          symbols[i + 1].value)
      else []
    }

    constructor ()
      ensures Valid() && fresh(symbols) && Names() == []
    {
      symbols := new Entry[INITIAL_SIZE](_ => Entry(0, ""));
      nextId := 1;
    }

    method Expand()
      requires Valid()
      modifies this`symbols
      ensures Valid() && fresh(symbols) && symbols.Length == 2 * old(symbols.Length)
      ensures Names() == old(Names())
    {
      var bigger := new Entry[2 * symbols.Length](_ => Entry(0, ""));
      forall i | 0 <= i < nextId {
        bigger[i] := symbols[i];
      }
      symbols := bigger;
      assert Names() == old(Names());
    }

    method Add(value: string) returns (id: nat)
      requires Valid() && value !in Names()
      modifies this, symbols
      ensures Valid() && (symbols == old(symbols) || fresh(symbols))
      ensures Names() == old(Names()) + [value] && id == |old(Names())| + 1
    {
      id := nextId;
      if id >= symbols.Length - 1 {
        Expand();
      }
      symbols[id] := Entry(id, value);
      nextId := nextId + 1;
      assert Names() == old(Names()) + [value];
    }

    method Symbolicate(value: string) returns (id: nat)
      requires Valid()
      modifies this, symbols
      ensures Valid() && (symbols == old(symbols) || fresh(symbols))
      ensures Names() == Intern(old(Names()), value) && id == IdOf(Names(), value)
    {
      var i := 1;
      while i < nextId
        invariant 1 <= i <= nextId
        invariant forall j :: 0 <= j < i - 1 ==> Names()[j] != value
      {
        if symbols[i].value == value {
          assert Names()[i - 1] == value;
          IndexIs(Names(), i - 1);
          return symbols[i].id;
        }
        i := i + 1;
      }
      id := Add(value);
      assert Names()[id - 1] == value;
      IndexIs(Names(), id - 1);
    }

    method Desymbolicate(id: nat) returns (r: Option<string>)
      requires Valid()
      ensures r == NameOf(Names(), id)
    {
      var i := 1;
      while i < nextId
        invariant 1 <= i <= nextId
        invariant 1 <= id < i ==> false
      {
        if id == symbols[i].id {
          return Some(symbols[i].value);
        }
        i := i + 1;
      }
      return None;
    }
  }
}
