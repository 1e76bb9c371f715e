/** The memory behind one pool as a value: its blocks, how far they are carved, the slots carved so
    far and the words stored.  What is proved here does not depend on who holds which slot. */
module Arenas {
  import opened Padding

  const BLOCK_SIZE: nat := 4096
  const WORD: nat := 8

  datatype Arena = Arena(
    slotSize: nat,
    mem: map<nat, nat>,     // the pointers stored in memory, by address
    blocks: seq<nat>,       // the blocks, newest first
    starts: map<nat, nat>,  // the first slot of each block
    ends: map<nat, nat>,    // how far each block has been carved
    home: map<nat, nat>)    // every slot carved so far, and its block

  function Head(s: seq<nat>): nat { if s == [] then 0 else s[0] }

  /** A block: header word with the link to the next block, padding of less than a slot, carved part,
      and a rest that in all but the newest block is too small for a slot. */
  ghost predicate BlockOk(a: Arena, i: nat) {
    && i < |a.blocks| && a.blocks[i] in a.starts && a.blocks[i] in a.ends
    && var b, start, end := a.blocks[i], a.starts[a.blocks[i]], a.ends[a.blocks[i]];
    && 0 < b && b % 8 == 0 && b + BLOCK_SIZE < TWO64
    && b + WORD <= start < b + WORD + a.slotSize && start <= end <= b + BLOCK_SIZE && end % 8 == 0
    && (i > 0 ==> end + a.slotSize > b + BLOCK_SIZE)
    && b in a.mem && a.mem[b] == Head(a.blocks[i + 1..])
  }

  ghost predicate BlocksApart(a: Arena, i: nat, j: nat) {
    i < j < |a.blocks| ==> a.blocks[i] + BLOCK_SIZE <= a.blocks[j] || a.blocks[j] + BLOCK_SIZE <= a.blocks[i]
  }

  /** A slot lies wholly inside the carved part of its block, behind the header. */
  ghost predicate SlotOk(a: Arena, s: nat) {
    && s in a.home && a.home[s] in a.blocks && a.home[s] in a.starts && a.home[s] in a.ends
    && a.starts[a.home[s]] <= s && s + a.slotSize <= a.ends[a.home[s]] && s % 8 == 0
  }

  ghost predicate SlotsApart(a: Arena, s: nat, t: nat) { s != t ==> s + a.slotSize <= t || t + a.slotSize <= s }

  /** A carved byte belongs to a slot. */
  ghost predicate Covered(a: Arena, b: nat, x: nat) {
    exists s :: s in a.home && a.home[s] == b && s <= x < s + a.slotSize
  }

  ghost predicate BlockCovered(a: Arena, b: nat) {
    b in a.starts && b in a.ends
    && forall x {:trigger Covered(a, b, x)} :: a.starts[b] <= x < a.ends[b] ==> Covered(a, b, x)
  }

  /** The quantifiers fire only where a proof names the block or slot it is about. */
  ghost predicate ArenaOk(a: Arena) {
    && SlotSize(a.slotSize)
    && (forall i: nat {:trigger BlockOk(a, i)} :: i < |a.blocks| ==> BlockOk(a, i))
    && (forall i: nat, j: nat {:trigger BlocksApart(a, i, j)} :: BlocksApart(a, i, j))
    && (forall s {:trigger SlotOk(a, s)} :: s in a.home ==> SlotOk(a, s))
    && (forall s, t {:trigger SlotsApart(a, s, t)} :: s in a.home && t in a.home ==> SlotsApart(a, s, t))
    && (forall b {:trigger BlockCovered(a, b)} :: b in a.blocks ==> BlockCovered(a, b))
  }

  /** What operator new promises: an aligned stretch of memory that nobody else has. */
  ghost predicate Obtainable(a: Arena, b: nat) {
    && 0 < b && b % 8 == 0 && b + BLOCK_SIZE < TWO64
    && forall i :: 0 <= i < |a.blocks| ==> b + BLOCK_SIZE <= a.blocks[i] || a.blocks[i] + BLOCK_SIZE <= b
  }

  // ----- a new block -----

  ghost function Installed(a: Arena, b: nat, padding: nat): Arena {
    var start := b + WORD + padding;
    a.(mem := a.mem[b := Head(a.blocks)], blocks := [b] + a.blocks,
       starts := a.starts[b := start], ends := a.ends[b := start])
  }

  lemma InstallOk(a: Arena, b: nat, padding: nat)
    requires ArenaOk(a) && Obtainable(a, b) && padding < a.slotSize && padding % 8 == 0
    requires a.blocks != [] ==> a.blocks[0] in a.ends && a.ends[a.blocks[0]] + a.slotSize > a.blocks[0] + BLOCK_SIZE
    ensures ArenaOk(Installed(a, b, padding))
  {
    var n := Installed(a, b, padding);
    forall i: nat | i < |n.blocks| ensures BlockOk(n, i) {
      if i > 0 {
        assert BlockOk(a, i - 1);
        assert n.blocks[i + 1..] == a.blocks[i..];
      } else {
        assert n.blocks[1..] == a.blocks;
      }
    }
    forall i: nat, j: nat ensures BlocksApart(n, i, j) {
      if 0 < i < j < |n.blocks| { assert BlocksApart(a, i - 1, j - 1); }
    }
    forall s | s in n.home ensures SlotOk(n, s) { assert SlotOk(a, s); }
    forall s, t | s in n.home && t in n.home ensures SlotsApart(n, s, t) { assert SlotsApart(a, s, t); }
    forall c | c in n.blocks ensures BlockCovered(n, c) {
      if c != b {
        assert BlockCovered(a, c);
        forall x | n.starts[c] <= x < n.ends[c] ensures Covered(n, c, x) { assert Covered(a, c, x); }
      }
    }
  }

  // ----- a new slot -----

  ghost function Carved(a: Arena): Arena
    requires a.blocks != [] && a.blocks[0] in a.ends
  {
    var b := a.blocks[0];
    a.(home := a.home[a.ends[b] := b], ends := a.ends[b := a.ends[b] + a.slotSize])
  }

  /** The next slot is apart from every slot carved before. */
  lemma NextSlotApart(a: Arena, s: nat)
    requires ArenaOk(a) && a.blocks != [] && s in a.home
    requires a.blocks[0] in a.ends && a.ends[a.blocks[0]] + a.slotSize <= a.blocks[0] + BLOCK_SIZE
    ensures s + a.slotSize <= a.ends[a.blocks[0]] || a.ends[a.blocks[0]] + a.slotSize <= s
  {
    assert SlotOk(a, s);
    var i :| 0 <= i < |a.blocks| && a.blocks[i] == a.home[s];
    assert BlockOk(a, i) && BlockOk(a, 0) && BlocksApart(a, 0, i);
  }

  lemma CarvedBlocks(a: Arena, i: nat)
    requires ArenaOk(a) && a.blocks != [] && i < |a.blocks|
    requires a.blocks[0] in a.ends && a.ends[a.blocks[0]] + a.slotSize <= a.blocks[0] + BLOCK_SIZE
    ensures BlockOk(Carved(a), i)
  {
    assert BlockOk(a, 0) && BlockOk(a, i) && BlocksApart(a, 0, i);
  }

  lemma CarvedCovered(a: Arena, d: nat)
    requires ArenaOk(a) && a.blocks != [] && a.blocks[0] in a.ends && d in a.blocks
    requires a.ends[a.blocks[0]] !in a.home
    ensures BlockCovered(Carved(a), d)
  {
    var n, b, c := Carved(a), a.blocks[0], a.ends[a.blocks[0]];
    assert BlockCovered(a, d);
    forall x | n.starts[d] <= x < n.ends[d] ensures Covered(n, d, x) {
      if d == b && x >= c { assert n.home[c] == d; } else { CoveredStays(a, n, d, x); }
    }
  }

  lemma CarveOk(a: Arena)
    requires ArenaOk(a) && a.blocks != []
    requires a.blocks[0] in a.ends && a.ends[a.blocks[0]] + a.slotSize <= a.blocks[0] + BLOCK_SIZE
    ensures ArenaOk(Carved(a)) && a.ends[a.blocks[0]] !in a.home
  {
    var n, b, c := Carved(a), a.blocks[0], a.ends[a.blocks[0]];
    assert BlockOk(a, 0);
    if c in a.home { NextSlotApart(a, c); }
    forall i: nat | i < |n.blocks| ensures BlockOk(n, i) { CarvedBlocks(a, i); }
    forall i: nat, j: nat ensures BlocksApart(n, i, j) { assert BlocksApart(a, i, j); }
    forall s | s in n.home ensures SlotOk(n, s) { if s != c { assert SlotOk(a, s); } }
    forall s, t | s in n.home && t in n.home ensures SlotsApart(n, s, t) {
      if s != c && t != c { assert SlotsApart(a, s, t); }
      else if s != c { NextSlotApart(a, s); }
      else if t != c { NextSlotApart(a, t); }
    }
    forall d | d in n.blocks ensures BlockCovered(n, d) { CarvedCovered(a, d); }
  }

  lemma CoveredStays(a: Arena, n: Arena, b: nat, x: nat)
    requires Covered(a, b, x) && n.slotSize == a.slotSize
    requires forall s :: s in a.home ==> s in n.home && n.home[s] == a.home[s]
    ensures Covered(n, b, x)
  {
  }

  // ----- stores -----

  /** A store into a slot, by its owner or by the free list, leaves the blocks as they were. */
  lemma StoreOk(a: Arena, s: nat, at: nat, value: nat)
    requires ArenaOk(a) && s in a.home && s <= at && at + WORD <= s + a.slotSize
    ensures ArenaOk(a.(mem := a.mem[at := value]))
  {
    var n := a.(mem := a.mem[at := value]);
    forall i: nat | i < |n.blocks| ensures BlockOk(n, i) {
      assert BlockOk(a, i) && SlotOk(a, s);
      var j :| 0 <= j < |a.blocks| && a.blocks[j] == a.home[s];
      assert BlockOk(a, j) && BlocksApart(a, i, j) && BlocksApart(a, j, i);
    }
    forall i: nat, j: nat ensures BlocksApart(n, i, j) { assert BlocksApart(a, i, j); }
    forall t | t in n.home ensures SlotOk(n, t) { assert SlotOk(a, t); }
    forall t, u | t in n.home && u in n.home ensures SlotsApart(n, t, u) { assert SlotsApart(a, t, u); }
    forall b | b in n.blocks ensures BlockCovered(n, b) {
      assert BlockCovered(a, b);
      forall x | n.starts[b] <= x < n.ends[b] ensures Covered(n, b, x) { assert Covered(a, b, x); }
    }
  }

  // ----- what it means -----

  /** Slots never overlap one another, and no slot overlaps the header link of any block. */
  lemma SlotsSeparate(a: Arena, s: nat, t: nat, i: nat)
    requires ArenaOk(a) && s in a.home && t in a.home && s != t && i < |a.blocks|
    ensures s + a.slotSize <= t || t + a.slotSize <= s
    ensures s + a.slotSize <= a.blocks[i] || a.blocks[i] + WORD <= s
  {
    assert SlotsApart(a, s, t) && SlotOk(a, s) && BlockOk(a, i);
    var j :| 0 <= j < |a.blocks| && a.blocks[j] == a.home[s];
    assert BlockOk(a, j) && BlocksApart(a, i, j) && BlocksApart(a, j, i);
  }

  /** Every byte of a block is in its header, in padding of less than a slot, in a slot, or not yet
      carved; and what an older block leaves uncarved is less than a slot. */
  lemma BytesAccountedFor(a: Arena, i: nat, x: nat)
    requires ArenaOk(a) && i < |a.blocks| && a.blocks[i] <= x < a.blocks[i] + BLOCK_SIZE
    ensures var b := a.blocks[i];
            && b in a.starts && b in a.ends && a.starts[b] - (b + WORD) < a.slotSize
            && (x < b + WORD || b + WORD <= x < a.starts[b] || Covered(a, b, x) || a.ends[b] <= x)
            && (i > 0 ==> b + BLOCK_SIZE - a.ends[b] < a.slotSize)
  {
    assert BlockOk(a, i) && BlockCovered(a, a.blocks[i]);
    if a.starts[a.blocks[i]] <= x < a.ends[a.blocks[i]] { assert Covered(a, a.blocks[i], x); }
  }
}
