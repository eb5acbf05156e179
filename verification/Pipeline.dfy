/** Generator, loader and dispatch loop in a row. */
module Pipeline {
  import opened Words
  import opened Assembly
  import opened Machine
  import opened Linking
  import opened Simulation
  import opened Correctness
  import opened Generator
  import opened Interpreter
  import Loader

  /** The chunk of a block, as the loader takes it. */
  method Compile(items: ItemBlock) returns (chunk: Output)
    ensures chunk == GenBlock(EMPTY_OUTPUT, BlockOf(items))
  {
    var buffer, data := GenChunk(items);
    return Output(buffer.data[..buffer.size], data.relocs, data.constants, data.symbols, data.debug);
  }

  function BlocksOf(items: seq<ItemBlock>): (r: seq<Block>)
    ensures |r| == |items| && forall i :: 0 <= i < |r| ==> r[i] == BlockOf(items[i])
  {
    seq(|items|, i requires 0 <= i < |items| => BlockOf(items[i]))
  }

  /** Compiles one block and loads it behind whatever is loaded already. */
  method LinkBlock(items: ItemBlock, store: Loader.Store)
    requires store.Valid() && Loadable(BlockOf(items), store.Contents())
    modifies store.Footprint()
    ensures store.Valid() && fresh(store.Footprint() - old(store.Footprint()))
    ensures store.Contents() == Linking.LoadChunk(old(store.Contents()), GenBlock(EMPTY_OUTPUT, BlockOf(items)))
  {
    hide GenBlock, Linking.LoadChunk, Loadable, Loader.InBounds, Loader.Store.Valid;
    var chunk := Compile(items);
    WellFormedOf(BlockOf(items), store.Contents());
    GeneratedInBounds(BlockOf(items));
    store.LoadChunk(chunk);
  }

  /** Compiles blocks and loads them, one behind the other, behind whatever is loaded already. */
  method Link(items: seq<ItemBlock>, store: Loader.Store)
    requires store.Valid() && AllLoadable(store.Contents(), BlocksOf(items))
    modifies store.Footprint()
    ensures store.Valid() && fresh(store.Footprint() - old(store.Footprint()))
    ensures store.Contents() == ImageAt(old(store.Contents()), BlocksOf(items), |items|)
  {
    hide GenBlock, Linking.LoadChunk, Loadable, Loader.Store.Valid, Loader.Store.Contents, Loader.Store.Footprint,
        BlockOf, ImageAt, AllLoadable;
    ghost var img, blocks, first := store.Contents(), BlocksOf(items), store.Footprint();
    var i := 0;
    FirstImage(img, blocks);
    while i < |items|
      invariant i <= |items|
      invariant store.Valid() && forall o :: o in store.Footprint() ==> o in first || fresh(o)
      invariant store.Contents() == ImageAt(img, blocks, i)
    {
      NextImage(img, blocks, i);
      ghost var before := store.Footprint();
      label Before:
      LinkBlock(items[i], store);
      forall o | o in store.Footprint()
        ensures o in first || fresh(o)
      {
        if o !in before {
          assert o in store.Footprint() - before;
          assert fresh@Before(o);
        }
      }
      i := i + 1;
    }
  }

  lemma {:induction false} FirstImage(img: Image, blocks: seq<Block>)
    ensures ImageAt(img, blocks, 0) == img
  {
  }

  lemma {:induction false} NextImage(img: Image, blocks: seq<Block>, i: nat)
    requires AllLoadable(img, blocks) && i < |blocks|
    ensures Loadable(blocks[i], ImageAt(img, blocks, i))
    ensures ImageAt(img, blocks, i + 1) == Linking.LoadChunk(ImageAt(img, blocks, i), GenBlock(EMPTY_OUTPUT, blocks[i]))
  {
  }

  lemma {:induction false} WellFormedOf(b: Block, img: Image)
    requires Loadable(b, img)
    ensures WellFormed(b)
  {
  }

  /** Links blocks and runs them from the first one's first instruction: the machine ends a run of `n`
  turns where the machine by instruction numbers does. */
  method CompileAndRun(items: seq<ItemBlock>, store: Loader.Store, n: nat) returns (vm: Vm, status: Status)
    requires store.Valid() && AllLoadable(store.Contents(), BlocksOf(items)) && |items| > 0
    modifies store.Footprint()
    ensures vm.Valid() && vm.store == store
    ensures var img, blocks := old(store.Contents()), BlocksOf(items);
      var x, r := TextAt(img, blocks), ImageAt(img, blocks, |blocks|);
      && vm.Around() == Env(r.pool, r.table)
      && |x.targets| == |x.code|
      && Matches(Addresses(x), Seen(status, vm.Now()),
                 SymRun(x, FreshSymbolic(0, StartData()), Env(r.pool, r.table), n))
  {
    hide SymRun, Machine.Run, Matches, AllLoadable, TextAt, Addresses, ImageAt, Loader.Store.Valid, LoadAll, StartData,
        FreshSymbolic, AddrOf;
    ghost var img, blocks := store.Contents(), BlocksOf(items);
    var base := store.programSize;
    StoreParts(store);
    Link(items, store);
    NothingLater(ImageAt(img, blocks, |blocks|));
    FreshRun(img, blocks, [], 0, StartData(), n);
    FirstAddress(img, blocks);
    vm := new Vm(store);
    vm.ip := base;
    StoreParts(store);
    status := vm.Run(n);
  }

  lemma {:induction false} FirstAddress(img: Image, blocks: seq<Block>)
    ensures AddrOf(TextAt(img, blocks), 0) == |img.mem|
  {
  }

  lemma {:induction false} StoreParts(store: Loader.Store)
    requires store.Valid()
    ensures store.CodeValid() && store.Contents().mem == store.Code() && |store.Code()| == store.programSize
    ensures store.PoolValid() && store.Contents().pool == store.Pool()
    ensures store.table.Valid() && store.Contents().table == store.table.Pairs()
  {
  }
}
