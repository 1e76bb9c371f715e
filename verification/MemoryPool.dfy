/** MemoryPool of memory/memoryPool.cc: slots are carved off the newest block, and released slots are
    chained through their own first word.  Memory is modelled word by word, so that the chain and
    the block headers can be shown to be out of the reach of the slots' owners. */
module MemoryPool {
  import opened Padding
  import opened Arenas

  class MemoryPool {
    const slotSize: nat
    var firstBlock: nat
    var curSlot: nat
    var freeList: nat
    var lastSlot: nat
    var mem: map<nat, nat>           // the pointers stored in memory, by address
    ghost var blocks: seq<nat>       // see Arena
    ghost var starts: map<nat, nat>
    ghost var ends: map<nat, nat>
    ghost var home: map<nat, nat>
    ghost var live: set<nat>         // the slots handed out and not returned
    ghost var free: seq<nat>         // the free list

    ghost function Memory(): Arena
      reads this`mem, this`blocks, this`starts, this`ends, this`home
    {
      Arena(slotSize, mem, blocks, starts, ends, home)
    }

    /** The pool's pointers describe its memory. */
    ghost predicate Layout()
      reads this`mem, this`blocks, this`starts, this`ends, this`home, this`firstBlock, this`curSlot, this`lastSlot
    {
      && ArenaOk(Memory())
      && firstBlock == Head(blocks)
      && (if blocks == [] then curSlot == 0 && lastSlot == 0
          else blocks[0] in ends && curSlot == ends[blocks[0]] && lastSlot == blocks[0] + BLOCK_SIZE - slotSize + 1)
    }

    /** Link `i` of the free list: a slot nobody holds, whose first word points to the next. */
    ghost predicate LinkOk(i: nat)
      reads this`mem, this`home, this`live, this`free
    {
      i < |free| && free[i] in home && free[i] !in live && free[i] in mem && mem[free[i]] == Head(free[i + 1..])
    }

    ghost predicate Chained()
      reads this`mem, this`home, this`live, this`free, this`freeList
    {
      && freeList == Head(free)
      && (forall i: nat {:trigger LinkOk(i)} :: i < |free| ==> LinkOk(i))
      && (forall i: nat, j: nat :: i < j < |free| ==> free[i] != free[j])
      && live <= home.Keys
    }

    /** No slot is lost: whoever does not hold it, the free list does. */
    ghost predicate Conserved()
      reads this`home, this`live, this`free
    {
      forall s :: s in home ==> s in live || s in free
    }

    ghost predicate Valid()
      reads this
    {
      Layout() && Chained() && Conserved()
    }

    constructor (size: nat)
      requires SlotSize(size)
      ensures Valid() && slotSize == size && live == {} && free == [] && blocks == []
    {
      slotSize := size;
      firstBlock, curSlot, freeList, lastSlot, mem := 0, 0, 0, 0, map[];
      blocks, starts, ends, home, live, free := [], map[], map[], map[], {}, [];
    }

    method Install(b: nat, padding: nat)
      requires firstBlock == Head(blocks) && ArenaOk(Installed(Memory(), b, padding)) && slotSize <= BLOCK_SIZE
      modifies this`firstBlock, this`mem, this`curSlot, this`lastSlot, this`blocks, this`starts, this`ends
      ensures Layout() && blocks == [b] + old(blocks) && curSlot == b + WORD + padding
    {
      mem, firstBlock := mem[b := firstBlock], b;
      curSlot := b + WORD + padding;
      lastSlot := b + BLOCK_SIZE - slotSize + 1;
      blocks, starts, ends := [b] + blocks, starts[b := curSlot], ends[b := curSlot];
      assert Memory() == Installed(old(Memory()), b, padding);
    }

    /** allocateNewBlock, called when the newest block has no room for a slot: it drops whatever is on
        the free list, so slots are conserved exactly if that list was empty. */
    method AllocateNewBlock(b: nat)
      requires Valid() && Obtainable(Memory(), b) && curSlot >= lastSlot
      modifies this`firstBlock, this`mem, this`curSlot, this`lastSlot, this`freeList
      modifies this`blocks, this`starts, this`ends, this`free
      ensures Layout() && Chained() && blocks == [b] + old(blocks) && curSlot < lastSlot && free == []
      ensures Conserved() <==> old(free) == []
    {
      var body := b + WORD;
      PadBounds(body, slotSize);
      var padding := PadPointer(body, slotSize);
      InstallOk(Memory(), b, padding);
      if free != [] { assert LinkOk(0) && free[0] in home && free[0] !in live; }
      Install(b, padding);
      freeList, free := 0, [];
      assert Layout();
    }

    /** The second half of allocate: the next slot of a block that has room. */
    method Carve() returns (slot: nat)
      requires Valid() && blocks != [] && curSlot < lastSlot
      modifies this`curSlot, this`ends, this`home, this`live
      ensures Valid() && slot == old(curSlot) && slot !in old(home) && home.Keys == old(home.Keys) + {slot}
      ensures live == old(live) + {slot}
    {
      CarveOk(Memory());
      slot := curSlot;
      curSlot := curSlot + slotSize / WORD * WORD;
      home, ends := home[slot := blocks[0]], ends[blocks[0] := curSlot];
      live := live + {slot};
      assert Memory() == Carved(old(Memory()));
      forall i: nat | i < |free| ensures LinkOk(i) { assert old(LinkOk(i)); }
    }

    /** The first half of allocate: the slot released last. */
    method PopFree() returns (slot: nat)
      requires Valid() && free != []
      modifies this`freeList, this`free, this`live
      ensures Valid() && slot == old(free)[0] && free == old(free)[1..]
      ensures slot in home && slot !in old(live) && live == old(live) + {slot}
    {
      assert LinkOk(0);
      slot := freeList;
      freeList := mem[freeList];
      free, live := free[1..], live + {slot};
      forall i: nat | i < |free| ensures LinkOk(i) {
        assert old(LinkOk(i + 1));
        assert free[i + 1..] == old(free)[i + 2..];
      }
      forall s | s in home ensures s in live || s in free { assert s in old(free) ==> s == old(free)[0] || s in free; }
    }

    /** allocate; `b` is what operator new would answer. */
    method Allocate(b: nat) returns (slot: nat)
      requires Valid() && Obtainable(Memory(), b)
      modifies this
      ensures Valid() && slot in home && slot !in old(live) && live == old(live) + {slot}
      ensures if old(free) != [] then slot == old(free)[0] && home == old(home)
              else slot !in old(home) && home.Keys == old(home.Keys) + {slot}
      ensures free == if old(free) != [] then old(free)[1..] else []
      ensures blocks == old(blocks) || blocks == [b] + old(blocks)
    {
      if freeList != 0 {
        slot := PopFree();
      } else {
        if free != [] { assert LinkOk(0); ZeroIsNoSlot(Memory(), free[0]); }
        if curSlot >= lastSlot { AllocateNewBlock(b); }
        slot := Carve();
      }
    }

    /** deallocate; a correct caller returns a slot it holds, or null. */
    method Deallocate(p: nat)
      requires Valid() && (p == 0 || p in live)
      modifies this`mem, this`freeList, this`free, this`live
      ensures Valid() && home == old(home) && live == old(live) - {p}
      ensures free == if p == 0 then old(free) else [p] + old(free)
    {
      if p != 0 {
        Release(p);
      } else if 0 in live {
        ZeroIsNoSlot(Memory(), 0);
      }
    }

    method Release(p: nat)
      requires Valid() && p in live
      modifies this`mem, this`freeList, this`free, this`live
      ensures Valid() && home == old(home) && live == old(live) - {p} && free == [p] + old(free)
    {
      StoreOk(Memory(), p, p, freeList);
      forall i: nat | i < |free| ensures free[i] != p { assert LinkOk(i); }
      mem := mem[p := freeList];
      freeList := p;
      free, live := [p] + free, live - {p};
      assert Memory() == old(Memory()).(mem := mem);
      forall i: nat | i < |free| ensures LinkOk(i) {
        if i > 0 {
          assert old(LinkOk(i - 1));
          assert free[i + 1..] == old(free)[i..];
        } else {
          assert free[1..] == old(free);
        }
      }
    }

    /** The owner of a slot stores what it likes in it. */
    method OwnerWrites(slot: nat, at: nat, value: nat)
      requires Valid() && slot in live && slot <= at && at + WORD <= slot + slotSize
      modifies this`mem
      ensures Valid() && mem == old(mem)[at := value]
    {
      StoreOk(Memory(), slot, at, value);
      forall i: nat | i < |free| ensures free[i] != at {
        assert LinkOk(i);
        assert SlotsApart(Memory(), slot, free[i]);
      }
      mem := mem[at := value];
      assert Memory() == old(Memory()).(mem := mem);
      forall i: nat | i < |free| ensures LinkOk(i) { assert old(LinkOk(i)); }
    }
  }

  lemma ZeroIsNoSlot(a: Arena, s: nat)
    requires ArenaOk(a) && s in a.home
    ensures s != 0
  {
    assert SlotOk(a, s);
    var i :| 0 <= i < |a.blocks| && a.blocks[i] == a.home[s];
    assert BlockOk(a, i);
  }

  /** Between threads conservation fails: one thread finds the free list empty, another releases `p`,
      and the first goes on to allocateNewBlock, which forgets `p`. */
  method InterleavedReleaseLeaks(pool: MemoryPool, p: nat, b: nat)
    requires pool.Valid() && pool.free == [] && p in pool.live
    requires pool.curSlot >= pool.lastSlot && Obtainable(pool.Memory(), b)
    modifies pool
    ensures p in pool.home && p !in pool.live && p !in pool.free && !pool.Conserved()
  {
    ZeroIsNoSlot(pool.Memory(), p);
    pool.Deallocate(p);
    assert pool.blocks == old(pool.blocks);
    pool.AllocateNewBlock(b);
  }

  // ----- whole runs -----

  /** What the users of a pool do, one after the other.  A slot is named by its place among those held. */
  datatype Use = Take | Return(which: nat) | Store(which: nat, offset: nat, value: nat)

  function Balance(uses: seq<Use>): nat {
    if uses == [] then 0 else HeldAfter(Balance(uses[..|uses| - 1]), uses[|uses| - 1])
  }

  /** How many slots are held after a use. */
  function HeldAfter(held: nat, use: Use): nat {
    match use
    case Take => held + 1
    case Return(_) => if held == 0 then 0 else held - 1
    case Store(_, _, _) => held
  }

  /** Blocks that operator new may hand out: aligned and apart. */
  predicate Supply(blocks: seq<nat>) {
    && (forall i :: 0 <= i < |blocks| ==> 0 < blocks[i] && blocks[i] % 8 == 0 && blocks[i] + BLOCK_SIZE < TWO64)
    && (forall i, j :: 0 <= i < j < |blocks| ==>
          blocks[i] + BLOCK_SIZE <= blocks[j] || blocks[j] + BLOCK_SIZE <= blocks[i])
  }

  ghost predicate TakenFrom(blocks: seq<nat>, supply: seq<nat>, n: nat)
    requires n <= |supply|
  {
    forall i :: 0 <= i < |blocks| ==> blocks[i] in supply[..n]
  }

  /** The slots that are held are those handed out and not returned, each once. */
  ghost predicate Holds(held: seq<nat>, live: set<nat>) {
    && (forall i :: 0 <= i < |held| ==> held[i] in live)
    && (forall s :: s in live ==> s in held)
    && (forall i, j :: 0 <= i < j < |held| ==> held[i] != held[j])
  }

  lemma NextObtainable(a: Arena, supply: seq<nat>, n: nat)
    requires Supply(supply) && n < |supply| && TakenFrom(a.blocks, supply, n)
    ensures Obtainable(a, supply[n])
  {
    forall i | 0 <= i < |a.blocks|
      ensures supply[n] + BLOCK_SIZE <= a.blocks[i] || a.blocks[i] + BLOCK_SIZE <= supply[n]
    {
      var j :| 0 <= j < |supply[..n]| && supply[..n][j] == a.blocks[i];
      assert supply[j] == a.blocks[i];
    }
  }

  lemma ReturnHolds(held: seq<nat>, live: set<nat>, k: nat)
    requires Holds(held, live) && k < |held|
    ensures Holds(held[..k] + held[k + 1..], live - {held[k]})
  {
    var rest := held[..k] + held[k + 1..];
    forall s | s in live && s != held[k] ensures s in rest {
      var i :| 0 <= i < |held| && held[i] == s;
      assert rest[if i < k then i else i - 1] == s;
    }
    assert forall i :: 0 <= i < |rest| ==> rest[i] == held[if i < k then i else i + 1];
  }

  method Perform(pool: MemoryPool, use: Use, held: seq<nat>, b: nat) returns (now: seq<nat>)
    requires pool.Valid() && Holds(held, pool.live) && Obtainable(pool.Memory(), b)
    modifies pool
    ensures pool.Valid() && Holds(now, pool.live) && |now| == HeldAfter(|held|, use)
    ensures pool.blocks == old(pool.blocks) || pool.blocks == [b] + old(pool.blocks)
    ensures old(pool.home.Keys) <= pool.home.Keys
  {
    now := held;
    match use {
      case Take =>
        var slot := pool.Allocate(b);
        now := held + [slot];
      case Return(which) =>
        if held != [] {
          var k := which % |held|;
          ReturnHolds(held, pool.live, k);
          pool.Deallocate(held[k]);
          now := held[..k] + held[k + 1..];
        }
      case Store(which, offset, value) =>
        if held != [] {
          var slot := held[which % |held|];
          pool.OwnerWrites(slot, slot + offset % (pool.slotSize - WORD + 1), value);
        }
    }
  }

  /** In every sequential run the slots held, the free list and the blocks stay in order, and every slot
      ever carved is held or free. */
  method Play(size: nat, uses: seq<Use>, supply: seq<nat>) returns (pool: MemoryPool, held: seq<nat>)
    requires SlotSize(size) && Supply(supply) && |uses| <= |supply|
    ensures pool.Valid() && pool.slotSize == size && Holds(held, pool.live) && |held| == Balance(uses)
    ensures forall s :: s in pool.home ==> s in held || s in pool.free
  {
    pool := new MemoryPool(size);
    held := [];
    var i := 0;
    while i < |uses|
      invariant i <= |uses| && fresh(pool) && pool.slotSize == size
      invariant pool.Valid() && Holds(held, pool.live) && TakenFrom(pool.blocks, supply, i)
      invariant |held| == Balance(uses[..i])
    {
      NextObtainable(pool.Memory(), supply, i);
      held := Perform(pool, uses[i], held, supply[i]);
      assert supply[..i + 1] == supply[..i] + [supply[i]] && uses[..i + 1][..i] == uses[..i];
      i := i + 1;
    }
    assert uses[..i] == uses;
  }
}
