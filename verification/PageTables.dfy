/** The driver's page-table builder: a bump allocator of blocks and the tables written into them. */
module PageTables {
  import opened Machine
  import opened PageWalk
  import opened PageTree
  import opened PageNodes

  const RESERVED_BLOCKS: int := 50

  /** Blocks set aside by init_page_table_break. */
  function NumBlocks(size: nat): nat {
    RESERVED_BLOCKS + CeilDiv(size, HUGE_PAGE_SIZE) + CeilDiv(size, GIB) + 3
  }

  /** Every walk outside the recursive window ends as before. */
  ghost predicate SamePaths(m: Mem, m': Mem) {
    forall j4, j3, j2, j1 | 0 <= j4 < 511 && 0 <= j3 < ENTRIES && 0 <= j2 < ENTRIES && 0 <= j1 < ENTRIES ::
      Path(m', m.base, j4, j3, j2, j1) == Path(m, m.base, j4, j3, j2, j1)
  }

  /** The walk of (i4, i3, i2, i1) ends in leaf entry `e`; every other walk outside the window ends as before. */
  ghost predicate OnePathSet(m: Mem, m': Mem, i4: nat, i3: nat, i2: nat, i1: nat, e: u64)
    requires i4 < ENTRIES && i3 < ENTRIES && i2 < ENTRIES && i1 < ENTRIES
  {
    && (var p := Path(m', m.base, i4, i3, i2, i1); p.Leaf4K? && p.e1 == e)
    && forall j4, j3, j2, j1 | 0 <= j4 < 511 && 0 <= j3 < ENTRIES && 0 <= j2 < ENTRIES && 0 <= j1 < ENTRIES ::
         (j4, j3, j2, j1) == (i4, i3, i2, i1) || Path(m', m.base, j4, j3, j2, j1) == Path(m, m.base, j4, j3, j2, j1)
  }

  class PageTables {
    const physBase: nat
    const totalSize: nat
    const words: array2<u64>
    var nextBlock: nat
    var tableBreak: nat
    /** The same memory as a value, and where each allocated block hangs. */
    ghost var mem: Mem
    ghost var nodes: seq<Node>

    ghost predicate Backed()
      reads this, words
    {
      && words.Length0 == |mem.blocks| && words.Length1 == ENTRIES
      && (forall b, i | 0 <= b < words.Length0 && 0 <= i < ENTRIES :: words[b, i] == mem.blocks[b][i])
      && mem.base == physBase && Aligned(physBase, |mem.blocks|)
    }

    ghost predicate Valid()
      reads this, words
    {
      && Backed()
      && Tree(mem, nodes)
      && nextBlock == physBase + 4096 * |nodes|
      && nextBlock <= tableBreak <= physBase + 4096 * |mem.blocks|
      && tableBreak % 4096 == 0
    }

    /** Blocks left before the break. */
    ghost function Spare(): int
      reads this
    {
      (tableBreak - nextBlock) / 4096
    }

    /** The reserved memory at `phys`, with whatever it holds. */
    constructor (phys: nat, size: nat, init: (nat, nat) -> u64)
      requires Aligned(phys, size / 4096)
      ensures physBase == phys && totalSize == size && Backed() && |mem.blocks| == size / 4096
      ensures fresh(words)
    {
      physBase, totalSize := phys, size;
      words := new u64[size / 4096, ENTRIES]((b: nat, i: nat) => init(b, i));
      nextBlock, tableBreak := 0, 0;
      nodes := [];
      mem := Mem(phys, seq(size / 4096, b requires b >= 0 => seq(ENTRIES, i requires i >= 0 => init(b, i))));
    }

    /** *PTE(block, i) = e. */
    method SetEntry(b: nat, i: nat, e: u64)
      requires Backed() && b < |mem.blocks| && i < ENTRIES
      modifies words, `mem
      ensures Backed() && mem == WithSlot(old(mem), b, i, e)
    {
      words[b, i] := e;
      mem := WithSlot(mem, b, i, e);
    }

    method ZeroBlockAt(b: nat)
      requires Backed() && b < |mem.blocks|
      modifies words, `mem
      ensures Backed() && mem == Zeroed(old(mem), b)
    {
      for i := 0 to ENTRIES
        invariant mem == old(mem)
        invariant forall c, j | 0 <= c < words.Length0 && 0 <= j < ENTRIES ::
                    words[c, j] == if c == b && j < i then 0 else old(words[c, j])
      {
        words[b, i] := 0;
      }
      mem := Zeroed(mem, b);
    }

    /** alloc_block: past the break the answer is 0, and the bump pointer has moved all the same. */
    method AllocBlock() returns (a: nat)
      requires Backed() && physBase <= nextBlock && nextBlock % 4096 == 0
      requires tableBreak <= physBase + 4096 * |mem.blocks|
      modifies words, `mem, `nextBlock
      ensures Backed() && nextBlock == old(nextBlock) + 4096
      ensures nextBlock > tableBreak ==> a == 0 && mem == old(mem)
      ensures nextBlock <= tableBreak ==>
                && a == old(nextBlock)
                && (a - physBase) / 4096 < |old(mem).blocks|
                && mem == Zeroed(old(mem), (a - physBase) / 4096)
    {
      a := nextBlock;
      nextBlock := nextBlock + 4096;
      if nextBlock > tableBreak {
        return 0;
      }
      ZeroBlockAt((a - physBase) / 4096);
    }

    /** Hang a fresh, empty table in slot (b, i). */
    method AddTable(b: nat, i: nat, flags: nat) returns (c: nat)
      requires Valid() && FreeSlot(mem, nodes, b, i) && (flags == FLAGS || flags == FLAGS_USER)
      requires nextBlock < tableBreak
      modifies words, `mem, `nextBlock, `nodes
      ensures Valid() && c == |old(nodes)| && nodes == old(nodes) + [Node(old(nodes)[b].level - 1, b, i)]
      ensures old(FreeSlot(mem, nodes, b, i)) && mem == WithTable(old(mem), c, b, i, flags)
      ensures SamePaths(old(mem), mem)
    {
      hide Tree, Path, Zeroed, WithSlot;
      var a := AllocBlock();
      c := (a - physBase) / 4096;
      SetEntry(b, i, a + flags);
      AddTableKeepsTree(old(mem), nodes, b, i, flags);
      AddTableSamePaths(old(mem), nodes, b, i, flags);
      nodes := nodes + [Node(nodes[b].level - 1, b, i)];
    }

    /** The table that slot (b, i) leads to; a missing one is added. */
    method Descend(b: nat, i: nat) returns (c: nat)
      requires Valid() && b < |nodes| && nodes[b].level >= 2 && i < ENTRIES && !(b == 0 && i == 511)
      requires nodes[b] != Node(3, 0, 510)
      requires Present(mem.blocks[b][i]) || nextBlock < tableBreak
      modifies words, `mem, `nextBlock, `nodes
      ensures Valid()
      ensures b < |old(nodes)| <= |nodes| && |old(nodes)| <= |old(mem).blocks|
      ensures 0 < c < |nodes| <= |mem.blocks| && nodes[c] == Node(nodes[b].level - 1, b, i)
      ensures Present(old(mem).blocks[b][i]) ==> mem == old(mem) && nodes == old(nodes) && nextBlock == old(nextBlock)
      ensures !Present(old(mem).blocks[b][i]) ==>
                && nodes == old(nodes) + [nodes[c]] && nextBlock == old(nextBlock) + 4096
                && forall x | 0 <= x < ENTRIES :: mem.blocks[c][x] == 0
      ensures SamePaths(old(mem), mem)
    {
      hide Tree, Path, WithTable, Big, Frame;
      TreeBounds(mem, nodes);
      SlotUsed(mem, nodes, b, i);
      var e := words[b, i];
      if !Present(e) {
        c := AddTable(b, i, FLAGS);
        NewSlots(old(mem), c, b, i, FLAGS);
      } else {
        ghost var d := StepDown(mem, nodes, b, i);
        DriverBlock(physBase, |mem.blocks|, e, d);
        // The block that e & ~0xfff names.
        c := (e - e % 4096 - physBase) / 4096;
      }
    }

    /**
     map_page: either the page gets the frame, with every other walk outside the recursive window untouched, or it
     already had one and nothing at all changes. Missing tables are added first.
     */
    method MapPage(phys: nat, virt: u64) returns (r: int)
      requires Valid() && P4Index(virt) < 510
      requires phys % 4096 == 0 && phys < ADDR_LIMIT
      requires Needed(nodes, P4Index(virt), P3Index(virt), P2Index(virt)) <= Spare()
      modifies words, `mem, `nextBlock, `nodes
      ensures Valid() && (r == 0 || r == -1)
      ensures r == -1 <==> PathOf(old(mem), physBase, virt) != Fault
      ensures r == -1 ==> mem == old(mem) && nodes == old(nodes) && nextBlock == old(nextBlock)
      ensures r == 0 ==>
                OnePathSet(old(mem), mem, P4Index(virt), P3Index(virt), P2Index(virt), P1Index(virt), phys + FLAGS)
      ensures TablesAdded(old(nodes), nodes, P4Index(virt), P3Index(virt), P2Index(virt))
    {
      hide Tree, Path, Needed, TablesAdded, At1, OnePathSet, SamePaths, WithSlot, P4Index, P3Index, P2Index, P1Index;
      IndexBounds(virt);
      var i4, i3, i2, i1 := P4Index(virt), P3Index(virt), P2Index(virt), P1Index(virt);
      var b1 := EnsureTables(i4, i3, i2);
      ghost var m := mem;
      LeafFound(old(mem), m, nodes, b1, i4, i3, i2, i1);
      var e := words[b1, i1];
      if Present(e) {
        return -1;
      }
      SetEntry(b1, i1, phys + FLAGS);
      LeafSet(old(mem), m, nodes, b1, i1, phys + FLAGS, i4, i3, i2);
      return 0;
    }

    /** The three descents of map_page; a table that had to be added is empty. */
    method EnsureTables(i4: nat, i3: nat, i2: nat) returns (b1: nat)
      requires Valid() && i4 < 510 && i3 < ENTRIES && i2 < ENTRIES
      requires Needed(nodes, i4, i3, i2) <= Spare()
      modifies words, `mem, `nextBlock, `nodes
      ensures Valid() && At1(nodes, b1, i4, i3, i2) && SamePaths(old(mem), mem)
      ensures TablesAdded(old(nodes), nodes, i4, i3, i2)
      ensures b1 < |mem.blocks|
      ensures (mem == old(mem) && nodes == old(nodes) && nextBlock == old(nextBlock))
              || forall x | 0 <= x < ENTRIES :: mem.blocks[b1][x] == 0
    {
      hide Tree, Path, Needed, At2, Has3, Has2, Has1, Step3, Step2, Step1, TablesAdded, At1, SamePaths;
      ghost var m0, n0 := mem, nodes;
      TreeBounds(mem, nodes);
      RootSlotHas3(mem, nodes, i4);
      NeededBounds(n0, i4, i3, i2);

      var b3 := Descend(0, i4);
      ghost var m1, n1 := mem, nodes;
      StepAdded3(m0, n0, n1, i4, i3, i2);
      SlotHas2(m1, n1, b3, i4, i3);
      NeededBounds(n1, i4, i3, i2);

      var b2 := Descend(b3, i3);
      ghost var m2, n2 := mem, nodes;
      StepAdded2(m1, n1, n2, b3, b2, i4, i3, i2);
      SlotHas1(m2, n2, b2, i4, i3, i2);
      NeededBounds(n2, i4, i3, i2);

      b1 := Descend(b2, i2);
      StepAdded1(m2, n2, nodes, b2, b1, i4, i3, i2);
      AllAdded(n0, n1, n2, nodes, i4, i3, i2);
      SamePathsChain(m0, m1, m2, mem);
    }

    // ---- Building the tables ----

    /** init_page_table: the break, then the tables; 50 blocks are left. */
    method InitPageTable()
      requires Backed() && totalSize <= P4_SPAN && NumBlocks(totalSize) <= |mem.blocks|
      requires physBase + totalSize + PAGE_SIZE < ADDR_LIMIT
      modifies words, `mem, `nextBlock, `tableBreak, `nodes
      ensures Valid() && Built(mem, 512, CeilDiv(totalSize, PAGE_SIZE))
      ensures |nodes| == 3 + CeilDiv(totalSize, GIB) + CeilDiv(totalSize, HUGE_PAGE_SIZE)
      ensures Spare() == RESERVED_BLOCKS && tableBreak == physBase + NumBlocks(totalSize) * 4096
      ensures |mem.blocks| == |old(mem).blocks|
    {
      hide Tree, Built, Path, CeilDiv, LowBefore, EmptyFrom, Valid;
      tableBreak := physBase + NumBlocks(totalSize) * 4096;
      nextBlock := physBase;
      InitRoot();
      MapWindow();
      LowStart(this);
      MapLow();
      LowDone(this);
    }

    /** P4 with its self entry. */
    method InitRoot()
      requires Backed() && |mem.blocks| > 3 && nextBlock == physBase && tableBreak % 4096 == 0
      requires physBase + 3 * 4096 <= tableBreak <= physBase + 4096 * |mem.blocks|
      modifies words, `mem, `nextBlock, `nodes
      ensures Valid() && nodes == [ROOT] && Built(mem, 0, 0) && |mem.blocks| == |old(mem).blocks|
      ensures forall x | 0 <= x < 511 :: mem.blocks[0][x] == 0
    {
      hide Tree, Path;
      var p4 := AllocBlock();
      SetEntry(0, 511, p4 + FLAGS);
      FirstTable(old(mem), p4 + FLAGS);
      nodes := [ROOT];
    }

    /** The physical window: one table of 1 GiB pages under slot 510, and an empty table under slot 0. */
    method MapWindow()
      requires Valid() && nodes == [ROOT] && Built(mem, 0, 0) && physBase + 3 * 4096 <= tableBreak
      requires forall x | 0 <= x < 511 :: mem.blocks[0][x] == 0
      modifies words, `mem, `nextBlock, `nodes
      ensures Valid() && nodes == [ROOT, Node(3, 0, 510), Node(3, 0, 0)] && Built(mem, 512, 0)
      ensures |mem.blocks| == |old(mem).blocks| && EmptyFrom(mem, 2, 0)
    {
      hide Tree, Path, Built, SamePaths, WithTable, WithSlot, Big;
      TreeBounds(mem, nodes);
      ghost var m0 := mem;
      var upp := AddTable(0, 510, FLAGS);
      NewSlots(m0, 1, 0, 510, FLAGS);
      BuiltSame(m0, mem, 0, 0);
      for i := 0 to ENTRIES
        invariant Valid() && nodes == [ROOT, Node(3, 0, 510)] && Built(mem, i, 0)
        invariant |mem.blocks| == |old(mem).blocks| && nextBlock == physBase + 2 * 4096
        invariant mem.blocks[0][0] == 0 && EmptyFrom(mem, 1, i)
      {
        BuiltBig(mem, nodes, i);
        SlotFrame(mem, 1, i, i * GIB + FLAGS_HUGE);
        SetEntry(1, i, i * GIB + FLAGS_HUGE);
      }
      ghost var m1 := mem;
      var low := AddTable(0, 0, FLAGS_USER);
      NewSlots(m1, 2, 0, 0, FLAGS_USER);
      BuiltSame(m1, mem, 512, 0);
    }

    /** State of the low mapping before 1 GiB number `k`. */
    ghost predicate LowBefore(k: nat)
      reads this, words
    {
      && Valid() && |nodes| >= 3 && nodes[2] == Node(3, 0, 0)
      && |nodes| == 3 + k + Min(CeilDiv(totalSize, HUGE_PAGE_SIZE), k * 512)
      && tableBreak == physBase + NumBlocks(totalSize) * 4096
      && Built(mem, 512, Min(CeilDiv(totalSize, PAGE_SIZE), k * 0x4_0000))
      && EmptyFrom(mem, 2, k)
    }

    /** State inside 1 GiB number `k`, before 2 MiB number `j`; `b` is its level-2 table. */
    ghost predicate LowInside(k: nat, j: nat, b: nat)
      reads this, words
    {
      && Valid() && |nodes| >= 3 && nodes[2] == Node(3, 0, 0) && 2 < b < |nodes| && nodes[b] == Node(2, 2, k)
      && |nodes| == 3 + k + 1 + Min(CeilDiv(totalSize, HUGE_PAGE_SIZE), k * 512 + j)
      && tableBreak == physBase + NumBlocks(totalSize) * 4096
      && Built(mem, 512, Min(CeilDiv(totalSize, PAGE_SIZE), k * 0x4_0000 + j * 0x200))
      && EmptyFrom(mem, 2, k + 1) && EmptyFrom(mem, b, j)
    }

    method MapLow()
      requires totalSize <= P4_SPAN && physBase + totalSize + PAGE_SIZE < ADDR_LIMIT
      requires LowBefore(0)
      modifies words, `mem, `nextBlock, `nodes
      ensures LowBefore(CeilDiv(totalSize, GIB)) && |mem.blocks| == |old(mem).blocks|
    {
      hide Valid;
      var p2Num := CeilDiv(totalSize, GIB);
      for k := 0 to p2Num
        invariant LowBefore(k) && |mem.blocks| == |old(mem).blocks|
      {
        FillP2(k);
      }
    }

    method FillP2(k: nat)
      requires totalSize <= P4_SPAN && physBase + totalSize + PAGE_SIZE < ADDR_LIMIT
      requires k < CeilDiv(totalSize, GIB) && LowBefore(k)
      modifies words, `mem, `nextBlock, `nodes
      ensures LowBefore(k + 1) && |mem.blocks| == |old(mem).blocks|
    {
      hide Tree, Path, Built, SamePaths, WithTable, CeilDiv;
      Counts(totalSize, k);
      TreeBounds(mem, nodes);
      var b := AddTable(2, k, FLAGS_USER);
      NewSlots(old(mem), b, 2, k, FLAGS_USER);
      BuiltSame(old(mem), mem, 512, Min(CeilDiv(totalSize, PAGE_SIZE), k * 0x4_0000));
      var p1Num := Min(CeilDiv(totalSize - k * GIB, HUGE_PAGE_SIZE), ENTRIES);
      for j := 0 to p1Num
        invariant LowInside(k, j, b) && |mem.blocks| == |old(mem).blocks|
      {
        FillP1(k, j, b);
      }
    }

    method FillP1(k: nat, j: nat, b: nat)
      requires totalSize <= P4_SPAN && physBase + totalSize + PAGE_SIZE < ADDR_LIMIT
      requires k < ENTRIES && j < ENTRIES && k * GIB + j * HUGE_PAGE_SIZE < totalSize && LowInside(k, j, b)
      modifies words, `mem, `nextBlock, `nodes
      ensures LowInside(k, j + 1, b) && |mem.blocks| == |old(mem).blocks|
    {
      hide Tree, Path, Built, SamePaths, WithTable, WithSlot, CeilDiv;
      InnerCounts(totalSize, k, j);
      TreeBounds(mem, nodes);
      var c := AddTable(b, j, FLAGS);
      NewSlots(old(mem), c, b, j, FLAGS);
      BuiltSame(old(mem), mem, 512, k * 0x4_0000 + j * 0x200);
      FillLeaves(k, j, b, c, Min(CeilDiv(totalSize - k * GIB - j * HUGE_PAGE_SIZE, PAGE_SIZE), ENTRIES));
    }

    /** Map the first `n` pages of 2 MiB number `j` through their level-1 table `c`. */
    method FillLeaves(k: nat, j: nat, b: nat, c: nat, n: nat)
      requires Valid() && k < ENTRIES && j < ENTRIES && n <= ENTRIES && At1(nodes, c, 0, k, j) && c != b && c != 2
      requires n > 0 ==> (k * 0x4_0000 + j * 0x200 + n - 1) * PAGE_SIZE < totalSize
      requires physBase + totalSize + PAGE_SIZE < ADDR_LIMIT
      requires Built(mem, 512, k * 0x4_0000 + j * 0x200) && EmptyFrom(mem, 2, k + 1) && EmptyFrom(mem, b, j + 1)
      modifies words, `mem
      ensures Valid() && |mem.blocks| == |old(mem).blocks|
      ensures Built(mem, 512, k * 0x4_0000 + j * 0x200 + n)
      ensures EmptyFrom(mem, 2, k + 1) && EmptyFrom(mem, b, j + 1)
    {
      hide Tree, Path, Built, WithSlot, At1;
      ghost var start := k * 0x4_0000 + j * 0x200;
      TreeBounds(mem, nodes);
      AtInside(nodes, c, 0, k, j);
      for i := 0 to n
        invariant Valid() && |mem.blocks| == |old(mem).blocks|
        invariant Built(mem, 512, start + i)
        invariant EmptyFrom(mem, 2, k + 1) && EmptyFrom(mem, b, j + 1)
      {
        var p0 := k * GIB + j * HUGE_PAGE_SIZE + i * PAGE_SIZE;
        BuiltLeaf(mem, nodes, c, k, j, i, start + i);
        SlotFrame(mem, c, i, p0 + physBase + FLAGS);
        SetEntry(c, i, p0 + physBase + FLAGS);
      }
    }
  }

  lemma LowStart(pt: PageTables)
    requires pt.Valid() && pt.nodes == [ROOT, Node(3, 0, 510), Node(3, 0, 0)] && Built(pt.mem, 512, 0)
    requires EmptyFrom(pt.mem, 2, 0) && pt.tableBreak == pt.physBase + NumBlocks(pt.totalSize) * 4096
    ensures pt.LowBefore(0)
  {
    hide Tree, Built, CeilDiv, EmptyFrom;
  }

  /** With all of the low memory mapped the counts are the totals, and the reserve is left. */
  lemma LowDone(pt: PageTables)
    requires pt.LowBefore(CeilDiv(pt.totalSize, GIB)) && pt.totalSize <= P4_SPAN
    ensures pt.Valid() && Built(pt.mem, 512, CeilDiv(pt.totalSize, PAGE_SIZE))
    ensures |pt.nodes| == 3 + CeilDiv(pt.totalSize, GIB) + CeilDiv(pt.totalSize, HUGE_PAGE_SIZE)
    ensures pt.Spare() == RESERVED_BLOCKS && pt.tableBreak == pt.physBase + NumBlocks(pt.totalSize) * 4096
  {
    hide Tree, Built, CeilDiv, EmptyFrom;
    TotalCounts(pt.totalSize);
    SpareBlocks(pt.physBase, |pt.nodes|, RESERVED_BLOCKS);
  }

  lemma SpareBlocks(base: nat, used: nat, spare: nat)
    ensures (base + (used + spare) * 4096 - (base + 4096 * used)) / 4096 == spare
  {
  }

  lemma AtInside(nodes: seq<Node>, c: nat, i4: nat, i3: nat, i2: nat)
    requires At1(nodes, c, i4, i3, i2)
    ensures c < |nodes|
  {
  }

  /** Slots from `i` on are empty in block `b`. */
  ghost predicate EmptyFrom(m: Mem, b: nat, i: nat) {
    b < |m.blocks| && forall x | i <= x < ENTRIES :: m.blocks[b][x] == 0
  }

  /** The first `w` GiB of the window and the first `count` low pages are mapped, and nothing else outside the
      recursive window. */
  ghost predicate LeafOk(m: Mem, w: nat, count: nat, j4: nat, j3: nat, j2: nat, j1: nat)
    requires j4 < ENTRIES && j3 < ENTRIES && j2 < ENTRIES && j1 < ENTRIES
  {
    var p := Path(m, m.base, j4, j3, j2, j1);
    var page := j3 * 0x4_0000 + j2 * 0x200 + j1;
    if j4 == 0 && page < count then p.Leaf4K? && p.e1 == m.base + 4096 * page + FLAGS
    else if j4 == 510 && j3 < w then p.Leaf1G? && p.e3 == j3 * GIB + FLAGS_HUGE
    else p == Fault
  }

  ghost predicate Built(m: Mem, w: nat, count: nat) {
    forall j4, j3, j2, j1 | 0 <= j4 < 511 && 0 <= j3 < ENTRIES && 0 <= j2 < ENTRIES && 0 <= j1 < ENTRIES ::
      LeafOk(m, w, count, j4, j3, j2, j1)
  }

  lemma BuiltSame(m: Mem, m': Mem, w: nat, count: nat)
    requires Built(m, w, count) && SamePaths(m, m') && m.base == m'.base
    ensures Built(m', w, count)
  {
    hide Path;
    forall j4, j3, j2, j1 | 0 <= j4 < 511 && 0 <= j3 < ENTRIES && 0 <= j2 < ENTRIES && 0 <= j1 < ENTRIES
      ensures LeafOk(m', w, count, j4, j3, j2, j1)
    {
      assert LeafOk(m, w, count, j4, j3, j2, j1);
      assert Path(m', m.base, j4, j3, j2, j1) == Path(m, m.base, j4, j3, j2, j1);
    }
  }

  lemma HugeBits(i: nat)
    requires i < ENTRIES
    ensures Present(i * GIB + FLAGS_HUGE) && Big(i * GIB + FLAGS_HUGE)
  {
    var e := i * GIB + FLAGS_HUGE;
    assert e == 2 * (i * 0x2000_0000 + 113) + 1;
    assert e / 128 == i * 0x80_0000 + 1;
  }

  lemma BuiltBig(m: Mem, nodes: seq<Node>, i: nat)
    requires Tree(m, nodes) && |nodes| >= 2 && nodes[1] == Node(3, 0, 510) && i < ENTRIES
    requires Built(m, i, 0) && EmptyFrom(m, 1, i)
    ensures Tree(WithSlot(m, 1, i, i * GIB + FLAGS_HUGE), nodes)
    ensures Built(WithSlot(m, 1, i, i * GIB + FLAGS_HUGE), i + 1, 0)
  {
    hide Path, WithSlot, Present, Big, Tree;
    var e := i * GIB + FLAGS_HUGE;
    var m', w := WithSlot(m, 1, i, e), i + 1;
    HugeBits(i);
    SetBigKeepsTree(m, nodes, 1, i, e);
    forall j4, j3, j2, j1 | 0 <= j4 < 511 && 0 <= j3 < ENTRIES && 0 <= j2 < ENTRIES && 0 <= j1 < ENTRIES
      ensures LeafOk(m', w, 0, j4, j3, j2, j1)
    {
      assert LeafOk(m, i, 0, j4, j3, j2, j1);
      SetBigPath(m, nodes, 1, i, e, j4, j3, j2, j1);
    }
  }

  lemma BuiltLeaf(m: Mem, nodes: seq<Node>, b: nat, k: nat, j: nat, i: nat, count: nat)
    requires Tree(m, nodes) && At1(nodes, b, 0, k, j) && k < ENTRIES && j < ENTRIES && i < ENTRIES
    requires count == k * 0x4_0000 + j * 0x200 + i && Built(m, 512, count)
    requires m.base % 4096 == 0 && m.base + 4096 * count + FLAGS < ADDR_LIMIT && b < |m.blocks|
    ensures Tree(WithSlot(m, b, i, m.base + 4096 * count + FLAGS), nodes)
    ensures Built(WithSlot(m, b, i, m.base + 4096 * count + FLAGS), 512, count + 1)
  {
    hide Path, WithSlot, Tree, LeafOk;
    LeafOdd(m.base, count);
    var e := m.base + 4096 * count + FLAGS;
    var m', more := WithSlot(m, b, i, e), count + 1;
    SlotFrame(m, b, i, e);
    SetLeafKeepsTree(m, nodes, b, i, e);
    LeafHere(m', nodes, b, k, j, i, e);
    forall j4, j3, j2, j1 | 0 <= j4 < 511 && 0 <= j3 < ENTRIES && 0 <= j2 < ENTRIES && 0 <= j1 < ENTRIES
      ensures LeafOk(m', 512, more, j4, j3, j2, j1)
    {
      assert LeafOk(m, 512, count, j4, j3, j2, j1);
      SetLeafPath(m, nodes, b, i, e, 0, k, j, j4, j3, j2, j1);
      OneMoreLeaf(m, m', k, j, i, count, j4, j3, j2, j1);
    }
  }

  lemma LeafOdd(base: nat, count: nat)
    requires base % 4096 == 0
    ensures (base + 4096 * count + FLAGS) % 2 == 1
  {
    var a := base / 4096 + count;
    assert base + 4096 * count + FLAGS == 2 * (2048 * a + 49) + 1;
  }

  lemma LeafHere(m: Mem, nodes: seq<Node>, b: nat, k: nat, j: nat, i: nat, e: u64)
    requires Tree(m, nodes) && At1(nodes, b, 0, k, j) && k < ENTRIES && j < ENTRIES && i < ENTRIES
    requires b < |m.blocks| && m.blocks[b][i] == e && e % 2 == 1
    ensures
      var p := Path(m, m.base, 0, k, j, i);
      p.Leaf4K? && p.e1 == e
  {
    hide Path, Tree;
    PathUnder(m, nodes, b, 0, k, j, i);
  }

  /** Page `count` is mapped and every other walk is as before, so the first count + 1 pages are mapped. */
  lemma OneMoreLeaf(m: Mem, m': Mem, k: nat, j: nat, i: nat, count: nat, j4: nat, j3: nat, j2: nat, j1: nat)
    requires k < ENTRIES && j < ENTRIES && i < ENTRIES && count == k * 0x4_0000 + j * 0x200 + i && m.base == m'.base
    requires j4 < 511 && j3 < ENTRIES && j2 < ENTRIES && j1 < ENTRIES && LeafOk(m, 512, count, j4, j3, j2, j1)
    requires (j4, j3, j2, j1) != (0, k, j, i) ==> Path(m', m.base, j4, j3, j2, j1) == Path(m, m.base, j4, j3, j2, j1)
    requires
      var p := Path(m', m.base, 0, k, j, i);
      p.Leaf4K? && p.e1 == m.base + 4096 * count + FLAGS
    ensures LeafOk(m', 512, count + 1, j4, j3, j2, j1)
  {
    hide Path;
    assert j3 * 0x4_0000 + j2 * 0x200 + j1 == count ==> j3 == k && j2 == j && j1 == i;
  }

  lemma TotalCounts(size: nat)
    ensures Min(CeilDiv(size, HUGE_PAGE_SIZE), CeilDiv(size, GIB) * 512) == CeilDiv(size, HUGE_PAGE_SIZE)
    ensures Min(CeilDiv(size, PAGE_SIZE), CeilDiv(size, GIB) * 0x4_0000) == CeilDiv(size, PAGE_SIZE)
  {
  }

  /** How the clipped counts of one GiB continue the totals. */
  lemma Counts(size: nat, k: nat)
    requires size <= P4_SPAN && k < CeilDiv(size, GIB)
    ensures k < ENTRIES && k * GIB < size
    ensures Min(CeilDiv(size, HUGE_PAGE_SIZE), k * 512) == k * 512
    ensures
      var n := Min(CeilDiv(size - k * GIB, HUGE_PAGE_SIZE), ENTRIES);
      && Min(CeilDiv(size, HUGE_PAGE_SIZE), k * 512 + n) == k * 512 + n
      && Min(CeilDiv(size, HUGE_PAGE_SIZE), (k + 1) * 512) == k * 512 + n
      && Min(CeilDiv(size, PAGE_SIZE), k * 0x4_0000 + n * 0x200) == Min(CeilDiv(size, PAGE_SIZE), (k + 1) * 0x4_0000)
      && n > 0 && k * GIB + (n - 1) * HUGE_PAGE_SIZE < size
    ensures 3 + k + k * 512 < NumBlocks(size)
  {
  }

  lemma InnerCounts(size: nat, k: nat, j: nat)
    requires k * GIB + j * HUGE_PAGE_SIZE < size
    ensures k * 512 + j < CeilDiv(size, HUGE_PAGE_SIZE)
    ensures k * 0x4_0000 + j * 0x200 < CeilDiv(size, PAGE_SIZE)
    ensures
      var n := Min(CeilDiv(size - k * GIB - j * HUGE_PAGE_SIZE, PAGE_SIZE), ENTRIES);
      && Min(CeilDiv(size, PAGE_SIZE), k * 0x4_0000 + (j + 1) * 0x200) == k * 0x4_0000 + j * 0x200 + n
      && n > 0 && (k * 0x4_0000 + j * 0x200 + n - 1) * PAGE_SIZE < size
    ensures k < CeilDiv(size, GIB)
    ensures 3 + k + 1 + k * 512 + j < NumBlocks(size)
  {
  }

  lemma TreeBounds(m: Mem, nodes: seq<Node>)
    requires Tree(m, nodes)
    ensures 0 < |nodes| <= |m.blocks| && nodes[0] == ROOT && Aligned(m.base, |m.blocks|)
  {
  }

  /** e & ~0xfff is the frame of a table pointer. */
  lemma DriverBlock(base: nat, n: nat, e: u64, c: nat)
    requires Aligned(base, n) && c < n && Points(base, e, c)
    ensures (e - e % 4096 - base) / 4096 == c
  {
    var a := base / 4096 + c;
    FlagBits(a, e - a * 4096);
    assert e - e % 4096 == a * 4096 && base == base / 4096 * 4096;
  }

  lemma AddTableSamePaths(m: Mem, nodes: seq<Node>, b: nat, i: nat, flags: nat)
    requires Tree(m, nodes) && FreeSlot(m, nodes, b, i) && (flags == FLAGS || flags == FLAGS_USER)
    ensures SamePaths(m, WithTable(m, |nodes|, b, i, flags))
  {
    hide Tree, Path, WithTable;
    TreeBounds(m, nodes);
    var m' := WithTable(m, |nodes|, b, i, flags);
    forall j4, j3, j2, j1 | 0 <= j4 < 511 && 0 <= j3 < ENTRIES && 0 <= j2 < ENTRIES && 0 <= j1 < ENTRIES
      ensures Path(m', m.base, j4, j3, j2, j1) == Path(m, m.base, j4, j3, j2, j1)
    {
      AddTablePath(m, nodes, b, i, flags, j4, j3, j2, j1);
    }
  }

  lemma SamePathsChain(m0: Mem, m1: Mem, m2: Mem, m3: Mem)
    requires SamePaths(m0, m1) && SamePaths(m1, m2) && SamePaths(m2, m3)
    requires m0.base == m1.base == m2.base == m3.base
    ensures SamePaths(m0, m3)
  {
    hide Path;
  }

  /** Exactly the missing tables along (i4, i3, i2) were added. */
  ghost predicate TablesAdded(nodes: seq<Node>, nodes': seq<Node>, i4: nat, i3: nat, i2: nat) {
    && |nodes'| == |nodes| + Needed(nodes, i4, i3, i2)
    && (forall x: nat :: Has3(nodes', x) <==> Has3(nodes, x) || x == i4)
    && (forall x: nat, y: nat :: Has2(nodes', x, y) <==> Has2(nodes, x, y) || (x == i4 && y == i3))
    && (forall x: nat, y: nat, z: nat ::
          Has1(nodes', x, y, z) <==> Has1(nodes, x, y, z) || (x == i4 && y == i3 && z == i2))
  }

  lemma HasChain(nodes: seq<Node>, i4: nat, i3: nat, i2: nat)
    ensures Has1(nodes, i4, i3, i2) ==> Has2(nodes, i4, i3)
    ensures Has2(nodes, i4, i3) ==> Has3(nodes, i4)
  {
    if c: nat :| At1(nodes, c, i4, i3, i2) {
      assert At2(nodes, nodes[c].parent, i4, i3);
    }
    if c: nat :| At2(nodes, c, i4, i3) {
      assert At3(nodes, nodes[c].parent, i4);
    }
  }

  lemma NeededBounds(nodes: seq<Node>, i4: nat, i3: nat, i2: nat)
    ensures !Has3(nodes, i4) ==> Needed(nodes, i4, i3, i2) == 3
    ensures !Has2(nodes, i4, i3) ==> Needed(nodes, i4, i3, i2) >= 2
    ensures !Has1(nodes, i4, i3, i2) ==> Needed(nodes, i4, i3, i2) >= 1
    ensures Needed(nodes, i4, i3, i2) <= 3
  {
    HasChain(nodes, i4, i3, i2);
  }

  ghost predicate Grew(nodes: seq<Node>, nodes': seq<Node>, n: Node) {
    nodes' == nodes || nodes' == nodes + [n]
  }

  ghost predicate Step3(nodes: seq<Node>, nodes': seq<Node>, i4: nat) {
    && |nodes'| == |nodes| + (if Has3(nodes, i4) then 0 else 1)
    && (forall x: nat :: Has3(nodes', x) <==> Has3(nodes, x) || x == i4)
    && (forall x: nat, y: nat :: Has2(nodes', x, y) <==> Has2(nodes, x, y))
    && (forall x: nat, y: nat, z: nat :: Has1(nodes', x, y, z) <==> Has1(nodes, x, y, z))
  }

  ghost predicate Step2(nodes: seq<Node>, nodes': seq<Node>, i4: nat, i3: nat) {
    && |nodes'| == |nodes| + (if Has2(nodes, i4, i3) then 0 else 1)
    && (forall x: nat :: Has3(nodes', x) <==> Has3(nodes, x))
    && (forall x: nat, y: nat :: Has2(nodes', x, y) <==> Has2(nodes, x, y) || (x == i4 && y == i3))
    && (forall x: nat, y: nat, z: nat :: Has1(nodes', x, y, z) <==> Has1(nodes, x, y, z))
  }

  ghost predicate Step1(nodes: seq<Node>, nodes': seq<Node>, i4: nat, i3: nat, i2: nat) {
    && |nodes'| == |nodes| + (if Has1(nodes, i4, i3, i2) then 0 else 1)
    && (forall x: nat :: Has3(nodes', x) <==> Has3(nodes, x))
    && (forall x: nat, y: nat :: Has2(nodes', x, y) <==> Has2(nodes, x, y))
    && (forall x: nat, y: nat, z: nat ::
          Has1(nodes', x, y, z) <==> Has1(nodes, x, y, z) || (x == i4 && y == i3 && z == i2))
  }

  lemma StepAdded3(m: Mem, nodes: seq<Node>, nodes': seq<Node>, i4: nat, i3: nat, i2: nat)
    requires Tree(m, nodes) && Grew(nodes, nodes', Node(3, 0, i4)) && (nodes' == nodes <==> Has3(nodes, i4))
    ensures Step3(nodes, nodes', i4)
    ensures Needed(nodes', i4, i3, i2) == Needed(nodes, i4, i3, i2) - (|nodes'| - |nodes|)
  {
    TreeParents(m, nodes);
    hide Has3, Has2, Has1, Tree, At3, At2;
    HasChain(nodes, i4, i3, i2);
    if nodes' != nodes {
      forall x: nat ensures Has3(nodes', x) <==> Has3(nodes, x) || x == i4 { Append3(nodes, Node(3, 0, i4), x); }
      forall x: nat, y: nat ensures Has2(nodes', x, y) <==> Has2(nodes, x, y) { Append2(nodes, Node(3, 0, i4), x, y); }
      forall x: nat, y: nat, z: nat
        ensures Has1(nodes', x, y, z) <==> Has1(nodes, x, y, z)
      {
        Append1(nodes, Node(3, 0, i4), x, y, z);
      }
    }
  }

  lemma StepAdded2(m: Mem, nodes: seq<Node>, nodes': seq<Node>, b3: nat, b2: nat, i4: nat, i3: nat, i2: nat)
    requires Tree(m, nodes) && At3(nodes, b3, i4) && Grew(nodes, nodes', Node(2, b3, i3))
    requires nodes' == nodes <==> Has2(nodes, i4, i3)
    requires b2 < |nodes'| && nodes'[b2] == Node(2, b3, i3)
    ensures Step2(nodes, nodes', i4, i3) && At2(nodes', b2, i4, i3)
    ensures Needed(nodes', i4, i3, i2) == Needed(nodes, i4, i3, i2) - (|nodes'| - |nodes|)
  {
    TreeParents(m, nodes);
    hide Has3, Has2, Has1, Tree, At2, At1;
    assert At2(nodes', b2, i4, i3) by { OneUp(nodes', b2, i4, i3); }
    HasChain(nodes, i4, i3, i2);
    assert Has3(nodes, i4) by { Found3(nodes, b3, i4); }
    if nodes' != nodes {
      var n := Node(2, b3, i3);
      forall x: nat ensures Has3(nodes', x) <==> Has3(nodes, x) { Append3(nodes, n, x); }
      forall x: nat, y: nat
        ensures Has2(nodes', x, y) <==> Has2(nodes, x, y) || (x == i4 && y == i3)
      {
        Append2(nodes, n, x, y);
      }
      forall x: nat, y: nat, z: nat
        ensures Has1(nodes', x, y, z) <==> Has1(nodes, x, y, z)
      {
        Append1(nodes, n, x, y, z);
      }
    }
  }

  lemma StepAdded1(m: Mem, nodes: seq<Node>, nodes': seq<Node>, b2: nat, b1: nat, i4: nat, i3: nat, i2: nat)
    requires Tree(m, nodes) && At2(nodes, b2, i4, i3) && Grew(nodes, nodes', Node(1, b2, i2))
    requires nodes' == nodes <==> Has1(nodes, i4, i3, i2)
    requires b1 < |nodes'| && nodes'[b1] == Node(1, b2, i2)
    ensures Step1(nodes, nodes', i4, i3, i2) && At1(nodes', b1, i4, i3, i2)
  {
    TreeParents(m, nodes);
    hide Has3, Has2, Has1, Tree;
    if nodes' != nodes {
      var n := Node(1, b2, i2);
      forall x: nat ensures Has3(nodes', x) <==> Has3(nodes, x) { Append3(nodes, n, x); }
      forall x: nat, y: nat ensures Has2(nodes', x, y) <==> Has2(nodes, x, y) { Append2(nodes, n, x, y); }
      forall x: nat, y: nat, z: nat
        ensures Has1(nodes', x, y, z) <==> Has1(nodes, x, y, z) || (x == i4 && y == i3 && z == i2)
      {
        Append1(nodes, n, x, y, z);
      }
    }
  }

  lemma OneUp(nodes: seq<Node>, b2: nat, i4: nat, i3: nat)
    requires b2 < |nodes| && nodes[b2].level == 2 && nodes[b2].index == i3 && At3(nodes, nodes[b2].parent, i4)
    ensures At2(nodes, b2, i4, i3)
  {
  }

  lemma Found3(nodes: seq<Node>, b3: nat, i4: nat)
    requires At3(nodes, b3, i4)
    ensures Has3(nodes, i4)
  {
  }

  lemma AllAdded(n0: seq<Node>, n1: seq<Node>, n2: seq<Node>, n3: seq<Node>, i4: nat, i3: nat, i2: nat)
    requires Step3(n0, n1, i4) && Step2(n1, n2, i4, i3) && Step1(n2, n3, i4, i3, i2)
    ensures TablesAdded(n0, n3, i4, i3, i2)
  {
    hide Has3, Has2, Has1;
    HasChain(n0, i4, i3, i2);
  }

  /** Adding tables left the page's own walk where it was, which the slot now shows. */
  lemma LeafFound(m0: Mem, m: Mem, nodes: seq<Node>, b: nat, i4: nat, i3: nat, i2: nat, i1: nat)
    requires Tree(m, nodes) && At1(nodes, b, i4, i3, i2) && SamePaths(m0, m) && m0.base == m.base
    requires i4 < 510 && i3 < ENTRIES && i2 < ENTRIES && i1 < ENTRIES
    ensures b < |nodes| <= |m.blocks|
    ensures Present(m.blocks[b][i1]) <==> Path(m0, m.base, i4, i3, i2, i1) != Fault
  {
    hide Path, Present;
    PathUnder(m, nodes, b, i4, i3, i2, i1);
    assert Path(m, m.base, i4, i3, i2, i1) == Path(m0, m.base, i4, i3, i2, i1);
  }

  lemma LeafSet(m0: Mem, m: Mem, nodes: seq<Node>, b: nat, i1: nat, e: u64, i4: nat, i3: nat, i2: nat)
    requires Tree(m, nodes) && At1(nodes, b, i4, i3, i2) && SamePaths(m0, m) && m0.base == m.base
    requires i4 < 510 && i3 < ENTRIES && i2 < ENTRIES && i1 < ENTRIES && Present(e)
    ensures Tree(WithSlot(m, b, i1, e), nodes)
    ensures OnePathSet(m0, WithSlot(m, b, i1, e), i4, i3, i2, i1, e)
  {
    hide Path, WithSlot, Tree, Present;
    TreeBounds(m, nodes);
    var m' := WithSlot(m, b, i1, e);
    SlotFrame(m, b, i1, e);
    SetLeafKeepsTree(m, nodes, b, i1, e);
    PathUnder(m', nodes, b, i4, i3, i2, i1);
    forall j4, j3, j2, j1 | 0 <= j4 < 511 && 0 <= j3 < ENTRIES && 0 <= j2 < ENTRIES && 0 <= j1 < ENTRIES
      ensures (j4, j3, j2, j1) == (i4, i3, i2, i1) ||
              Path(m', m.base, j4, j3, j2, j1) == Path(m0, m.base, j4, j3, j2, j1)
    {
      SetLeafPath(m, nodes, b, i1, e, i4, i3, i2, j4, j3, j2, j1);
    }
  }
}
