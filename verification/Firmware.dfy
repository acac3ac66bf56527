/** What the finished tables translate, and the driver's firmware mappings on top of them. */
module Firmware {
  import opened Machine
  import opened Bytes
  import opened PageWalk
  import opened PageTree
  import opened PageNodes
  import opened PageTables

  // ---- From walks to translations ----

  lemma LowLeaf(base: nat, page: nat)
    requires base % 4096 == 0 && base + 4096 * page + 4096 <= ADDR_LIMIT
    ensures Frame(base + 4096 * page + FLAGS) == base + 4096 * page
  {
    var a := base / 4096 + page;
    FlagBits(a, FLAGS);
  }

  lemma HugeLeaf(i: nat)
    requires i < 512
    ensures Frame1G(i * GIB + FLAGS_HUGE) == i * GIB
  {
  }

  /** Which part of the address space `v` is in, by its level-4 index. */
  lemma WhereIs(v: u64)
    requires Canonical(v)
    ensures P4Index(v) == 511 <==> v >= W - P4_SPAN
    ensures P4Index(v) == 510 <==> W - 2 * P4_SPAN <= v < W - P4_SPAN
    ensures P4Index(v) == 0 <==> v < P4_SPAN
  {
    var d := v / 0x80_0000_0000;
    assert d * 0x80_0000_0000 <= v < d * 0x80_0000_0000 + 0x80_0000_0000;
    SpanNumber(d);
  }

  /** The 512 GiB number of a canonical address, modulo 512: the upper half counts from 256 on. */
  lemma SpanNumber(d: nat)
    requires d < 0x100 || 0x1ff_ff00 <= d < 0x200_0000
    ensures d % 512 == if d < 0x100 then d else d - 0x1ff_fe00
  {
    if d >= 0x1ff_ff00 {
      var e := d - 0x1ff_fe00;
      assert d == 0xffff * 512 + e;
    }
  }

  lemma LowPageNumber(v: u64)
    requires v < P4_SPAN
    ensures P3Index(v) * 0x4_0000 + P2Index(v) * 0x200 + P1Index(v) == v / 4096
  {
    hide P3Index, P2Index, P1Index, P4Index;
    var h := Decompose(v);
    IndexBounds(v);
  }

  lemma WindowOffset(v: u64)
    requires W - 2 * P4_SPAN <= v < W - P4_SPAN
    ensures P3Index(v) * GIB + v % GIB == v - (W - 2 * P4_SPAN)
  {
    var x := v - (W - 2 * P4_SPAN);
    assert v / GIB == x / GIB + 0x3_ffff_fc00;
  }

  /**
   init_page_table: [0, size rounded up) goes to base + v, [-1024 GiB, -512 GiB) goes to v + 1024 GiB,
   and no other address below the recursive window is mapped.
   */
  lemma BuiltTranslation(m: Mem, size: nat, v: u64)
    requires Built(m, 512, CeilDiv(size, PAGE_SIZE)) && size <= P4_SPAN
    requires m.base % 4096 == 0 && m.base + size + PAGE_SIZE < ADDR_LIMIT
    requires v < W - P4_SPAN
    ensures Walk(m, m.base, v) ==
              if v < RoundUp(size, PAGE_SIZE) then Some(m.base + v)
              else if v >= W - 2 * P4_SPAN then Some(v - (W - 2 * P4_SPAN))
              else None
  {
    hide Path, Built, P4Index, P3Index, P2Index, P1Index, Frame, Frame1G, Frame2M;
    if Canonical(v) {
      WhereIs(v);
      IndexBounds(v);
      BuiltAt(m, 512, CeilDiv(size, PAGE_SIZE), v);
      if P4Index(v) == 0 {
        LowPageNumber(v);
        PageBelow(v, size);
        if v < RoundUp(size, PAGE_SIZE) {
          LowLeaf(m.base, v / 4096);
        }
      } else if P4Index(v) == 510 {
        HugeLeaf(P3Index(v));
        WindowOffset(v);
      }
    }
  }

  lemma BuiltAt(m: Mem, w: nat, count: nat, v: u64)
    requires Built(m, w, count) && P4Index(v) < 511
    ensures P3Index(v) < ENTRIES && P2Index(v) < ENTRIES && P1Index(v) < ENTRIES
    ensures LeafOk(m, w, count, P4Index(v), P3Index(v), P2Index(v), P1Index(v))
  {
    IndexBounds(v);
  }

  lemma PageBelow(v: nat, size: nat)
    ensures v / 4096 < CeilDiv(size, PAGE_SIZE) <==> v < RoundUp(size, PAGE_SIZE)
    ensures v < RoundUp(size, PAGE_SIZE) ==> v / 4096 * 4096 < size
  {
  }

  /** Same page, up to the sign bits above bit 47 that a walk does not look at. */
  predicate SamePage(v: u64, w: u64) {
    P4Index(v) == P4Index(w) && P3Index(v) == P3Index(w) && P2Index(v) == P2Index(w) && P1Index(v) == P1Index(w)
  }

  /** map_page, said of translations. */
  lemma MapPageTranslation(m: Mem, m': Mem, virt: u64, phys: nat, v: u64)
    requires m.base == m'.base && phys % 4096 == 0 && phys + PAGE_SIZE <= ADDR_LIMIT
    requires OnePathSet(m, m', P4Index(virt), P3Index(virt), P2Index(virt), P1Index(virt), phys + FLAGS)
    requires v < W - P4_SPAN
    ensures Walk(m', m.base, v) ==
              if SamePage(v, virt) && Canonical(v) then Some(phys + v % 4096) else Walk(m, m.base, v)
  {
    hide Path, P4Index, P3Index, P2Index, P1Index, Frame, Frame1G, Frame2M;
    if Canonical(v) {
      WhereIs(v);
      IndexBounds(v);
      LowLeaf(phys, 0);
    }
  }

  /** Valid tables map themselves, so the kernel's recursive addresses work on them. */
  lemma TreeSelfMapped(m: Mem, nodes: seq<Node>)
    requires Tree(m, nodes)
    ensures SelfMapped(m, m.base)
  {
    RootEntry(m, 511);
    PointerBits(m.base, |m.blocks|, m.blocks[0][511], 0);
  }

  // ---- The block budget of a 4 MiB window ----

  const KERNEL_SIZE: int := 0x40_0000
  const KERNEL_STACK_SIZE: int := 0x1_0000
  const KERNEL_OFFSET: int := 0x160

  ghost predicate Has1At(nodes: seq<Node>, r: nat) {
    Has1(nodes, r / 0x4_0000 % 512, r / 0x200 % 512, r % 512)
  }

  ghost predicate Has2At(nodes: seq<Node>, g: nat) {
    Has2(nodes, g / 0x200 % 512, g % 512)
  }

  ghost predicate Has3At(nodes: seq<Node>, h: nat) {
    Has3(nodes, h % 512)
  }

  function One(b: bool): nat {
    if b then 1 else 0
  }

  /** Tables that the window [mv, mv + 4 MiB) can still need. */
  ghost function Missing(nodes: seq<Node>, mv: nat): nat {
    Missing1(nodes, mv / 0x20_0000) + Missing2(nodes, mv / 0x4000_0000) + Missing3(nodes, mv / 0x80_0000_0000)
  }

  ghost function Missing1(nodes: seq<Node>, r: nat): (n: nat)
    ensures n <= 3
  {
    One(!Has1At(nodes, r)) + One(!Has1At(nodes, r + 1)) + One(!Has1At(nodes, r + 2))
  }

  ghost function Missing2(nodes: seq<Node>, g: nat): (n: nat)
    ensures n <= 2
  {
    One(!Has2At(nodes, g)) + One(!Has2At(nodes, g + 1))
  }

  ghost function Missing3(nodes: seq<Node>, h: nat): (n: nat)
    ensures n <= 2
  {
    One(!Has3At(nodes, h)) + One(!Has3At(nodes, h + 1))
  }

  lemma Pays1(nodes: seq<Node>, nodes': seq<Node>, r: nat, x: nat)
    requires r <= x <= r + 2 && Has1At(nodes', x) && forall q: nat :: Has1At(nodes, q) ==> Has1At(nodes', q)
    ensures Missing1(nodes', r) + One(!Has1At(nodes, x)) <= Missing1(nodes, r)
  {
    hide Has1At;
  }

  lemma Pays2(nodes: seq<Node>, nodes': seq<Node>, g: nat, x: nat)
    requires g <= x <= g + 1 && Has2At(nodes', x) && forall q: nat :: Has2At(nodes, q) ==> Has2At(nodes', q)
    ensures Missing2(nodes', g) + One(!Has2At(nodes, x)) <= Missing2(nodes, g)
  {
    hide Has2At;
  }

  lemma Pays3(nodes: seq<Node>, nodes': seq<Node>, h: nat, x: nat)
    requires h <= x <= h + 1 && Has3At(nodes', x) && forall q: nat :: Has3At(nodes, q) ==> Has3At(nodes', q)
    ensures Missing3(nodes', h) + One(!Has3At(nodes, x)) <= Missing3(nodes, h)
  {
    hide Has3At;
  }

  /** The indices of `v` are the digits of its 2 MiB, 1 GiB and 512 GiB numbers. */
  lemma RegionDigits(v: u64)
    ensures
      var r, g, h := v / 0x20_0000, v / 0x4000_0000, v / 0x80_0000_0000;
      && r % 512 == P2Index(v) && r / 0x200 % 512 == P3Index(v) && r / 0x4_0000 % 512 == P4Index(v)
      && g % 512 == P3Index(v) && g / 0x200 % 512 == P4Index(v)
      && h % 512 == P4Index(v)
  {
    Shifts(v);
    var r := v / 0x20_0000;
    assert r / 0x200 == v / 0x4000_0000;
    assert r / 0x4_0000 == r / 0x200 / 0x200;
  }

  lemma WindowRegions(mv: nat, v: nat)
    requires mv <= v < mv + KERNEL_SIZE
    ensures mv / 0x20_0000 <= v / 0x20_0000 <= mv / 0x20_0000 + 2
    ensures mv / 0x4000_0000 <= v / 0x4000_0000 <= mv / 0x4000_0000 + 1
    ensures mv / 0x80_0000_0000 <= v / 0x80_0000_0000 <= mv / 0x80_0000_0000 + 1
  {
  }

  lemma NeededOf(nodes: seq<Node>, v: u64)
    ensures Needed(nodes, P4Index(v), P3Index(v), P2Index(v)) ==
              One(!Has1At(nodes, v / 0x20_0000)) + One(!Has2At(nodes, v / 0x4000_0000)) + One(!Has3At(nodes,
                  v / 0x80_0000_0000))
  {
    RegionDigits(v);
    hide P4Index, P3Index, P2Index, Has1, Has2, Has3;
    HasChain(nodes, P4Index(v), P3Index(v), P2Index(v));
  }

  /** Every table that map_page adds in the window is one the window was missing. */
  lemma MissingPays(nodes: seq<Node>, nodes': seq<Node>, mv: nat, v: u64)
    requires mv <= v < mv + KERNEL_SIZE
    requires TablesAdded(nodes, nodes', P4Index(v), P3Index(v), P2Index(v))
    ensures |nodes'| + Missing(nodes', mv) <= |nodes| + Missing(nodes, mv)
    ensures Needed(nodes, P4Index(v), P3Index(v), P2Index(v)) <= Missing(nodes, mv)
  {
    hide P4Index, P3Index, P2Index, Has1At, Has2At, Has3At, Needed, TablesAdded, Missing1, Missing2, Missing3, One;
    WindowRegions(mv, v);
    NeededOf(nodes, v);
    Grows(nodes, nodes', v);
    Pays1(nodes, nodes', mv / 0x20_0000, v / 0x20_0000);
    Pays2(nodes, nodes', mv / 0x4000_0000, v / 0x4000_0000);
    Pays3(nodes, nodes', mv / 0x80_0000_0000, v / 0x80_0000_0000);
  }

  lemma Grows(nodes: seq<Node>, nodes': seq<Node>, v: u64)
    requires TablesAdded(nodes, nodes', P4Index(v), P3Index(v), P2Index(v))
    ensures |nodes'| == |nodes| + Needed(nodes, P4Index(v), P3Index(v), P2Index(v))
    ensures forall r: nat :: Has1At(nodes, r) ==> Has1At(nodes', r)
    ensures forall g: nat :: Has2At(nodes, g) ==> Has2At(nodes', g)
    ensures forall h: nat :: Has3At(nodes, h) ==> Has3At(nodes', h)
    ensures Has1At(nodes', v / 0x20_0000) && Has2At(nodes', v / 0x4000_0000) && Has3At(nodes', v / 0x80_0000_0000)
  {
    RegionDigits(v);
    hide P4Index, P3Index, P2Index, Has1, Has2, Has3;
  }

  // ---- load_firmware ----

  datatype LoadResult = Loaded | BadSignature | TooLarge

  /** Byte `t` of the window is unmapped or goes to byte `t` of the reserved memory. */
  ghost predicate PageOk(m: Mem, mv: nat, t: nat)
    requires mv + t < W
  {
    var p := PathOf(m, m.base, mv + t);
    p == Fault || (p.Leaf4K? && p.e1 == m.base + (t - t % 4096) + FLAGS)
  }

  ghost predicate PageMapped(m: Mem, mv: nat, t: nat)
    requires mv + t < W
  {
    PathOf(m, m.base, mv + t) != Fault
  }

  ghost predicate OffsetKept(m: Mem, mv: nat)
    requires mv + KERNEL_SIZE <= W
  {
    forall t | 0 <= t < KERNEL_SIZE :: PageOk(m, mv, t)
  }

  ghost predicate MappedFrom(m: Mem, mv: nat, lo: nat, hi: nat)
    requires mv + KERNEL_SIZE <= W && hi <= KERNEL_SIZE
  {
    forall t | lo <= t < hi :: PageMapped(m, mv, t)
  }

  /** A page-aligned 4 MiB window with level-4 indices 1 .. 509 and no wrap. */
  predicate GoodWindow(mv: nat) {
    && mv % 4096 == 0 && mv + KERNEL_SIZE <= W
    && 1 <= P4Index(mv) <= 509 && 1 <= P4Index(mv + KERNEL_SIZE - 1) <= 509
  }

  lemma WindowIndex(mv: nat, t: nat)
    requires GoodWindow(mv) && t < KERNEL_SIZE
    ensures 1 <= P4Index(mv + t) <= 509
  {
    WindowRegions(mv, mv + t);
    WindowRegions(mv, mv + KERNEL_SIZE - 1);
    assert mv / 0x80_0000_0000 <= (mv + t) / 0x80_0000_0000 <= (mv + KERNEL_SIZE - 1) / 0x80_0000_0000;
  }

  /** Within a window, equal indices mean the same page. */
  lemma SameIndicesSamePage(mv: nat, t: nat, u: nat)
    requires mv % 4096 == 0 && mv + KERNEL_SIZE <= W && t < KERNEL_SIZE && u < KERNEL_SIZE
    ensures SamePage(mv + t, mv + u) <==> t / 4096 == u / 4096
  {
    hide P4Index, P3Index, P2Index, P1Index;
    var v, w := mv + t, mv + u;
    if SamePage(v, w) {
      SamePageNear(v, w);
      SameBlockOffset(mv, t, u);
    }
    if t / 4096 == u / 4096 {
      SameBlockOffset(mv, t, u);
      PageIndices(v, w);
    }
  }

  lemma SameBlockOffset(mv: nat, t: nat, u: nat)
    requires mv % 4096 == 0
    ensures t / 4096 == u / 4096 <==> (mv + t) / 4096 == (mv + u) / 4096
  {
    assert (mv + t) / 4096 == mv / 4096 + t / 4096;
    assert (mv + u) / 4096 == mv / 4096 + u / 4096;
  }

  lemma SamePageNear(v: u64, w: u64)
    requires SamePage(v, w) && -KERNEL_SIZE < v - w < KERNEL_SIZE
    ensures v / 4096 == w / 4096
  {
    hide P4Index, P3Index, P2Index, P1Index;
    var hv := Decompose(v);
    var hw := Decompose(w);
    assert v - w == (hv - hw) * 0x1_0000_0000_0000 + v % 4096 - w % 4096;
    assert hv == hw;
  }

  lemma PageIndices(v: u64, w: u64)
    requires v / 4096 == w / 4096
    ensures SamePage(v, w)
  {
    Shifts(v);
    Shifts(w);
  }

  /** One map_page call at offset `t` keeps the constant offset and maps exactly one more page. */
  lemma MapKeepsOffset(m: Mem, m': Mem, mv: nat, t: nat)
    requires GoodWindow(mv) && m.base == m'.base && t % 4096 == 0 && t < KERNEL_SIZE
        && m.base + KERNEL_SIZE < ADDR_LIMIT
    requires OffsetKept(m, mv)
    requires OnePathSet(m, m', P4Index(mv + t), P3Index(mv + t), P2Index(mv + t), P1Index(mv + t), m.base + t + FLAGS)
    ensures OffsetKept(m', mv)
    ensures forall u | 0 <= u < KERNEL_SIZE :: PageMapped(m', mv, u) <==> PageMapped(m, mv, u) || u / 4096 == t / 4096
  {
    hide Path, P4Index, P3Index, P2Index, P1Index, GoodWindow, OnePathSet, PageOk, PageMapped;
    WindowFacts(mv);
    forall u | 0 <= u < KERNEL_SIZE
      ensures PageOk(m', mv, u)
      ensures PageMapped(m', mv, u) <==> PageMapped(m, mv, u) || u / 4096 == t / 4096
    {
      assert PageOk(m, mv, u);
      MapKeepsOffsetAt(m, m', mv, t, u);
    }
  }

  lemma MapKeepsOffsetAt(m: Mem, m': Mem, mv: nat, t: nat, u: nat)
    requires GoodWindow(mv) && m.base == m'.base && t % 4096 == 0 && t < KERNEL_SIZE && u < KERNEL_SIZE
    requires m.base + KERNEL_SIZE < ADDR_LIMIT
    requires PageOk(m, mv, u)
    requires OnePathSet(m, m', P4Index(mv + t), P3Index(mv + t), P2Index(mv + t), P1Index(mv + t), m.base + t + FLAGS)
    ensures PageOk(m', mv, u)
    ensures PageMapped(m', mv, u) <==> PageMapped(m, mv, u) || u / 4096 == t / 4096
  {
    hide Path, P4Index, P3Index, P2Index, P1Index;
    WindowIndex(mv, u);
    IndexBounds(mv + u);
    SameIndicesSamePage(mv, u, t);
    assert u / 4096 == t / 4096 ==> u - u % 4096 == t;
  }

  /** What any number of load_firmware calls keeps: valid tables, one constant offset, and a bound on the blocks
      used. */
  ghost predicate FirmwareState(pt: PageTables, mv: nat, limit: nat)
    reads pt, pt.words
  {
    && pt.Valid() && GoodWindow(mv) && OffsetKept(pt.mem, mv)
    && |pt.nodes| + Missing(pt.nodes, mv) <= limit
    && pt.physBase + 4096 * limit <= pt.tableBreak
    && pt.physBase + KERNEL_SIZE < ADDR_LIMIT
  }

  /** Right after init_page_table, 7 of the 50 spare blocks are enough for the window, for good. */
  lemma FirmwareStart(pt: PageTables, mv: nat)
    requires pt.Valid() && GoodWindow(mv) && Built(pt.mem, 512, CeilDiv(pt.totalSize, PAGE_SIZE))
    requires pt.Spare() == RESERVED_BLOCKS && pt.physBase + KERNEL_SIZE < ADDR_LIMIT
    ensures FirmwareState(pt, mv, |pt.nodes| + 7)
  {
    hide Path, Built, P4Index, P3Index, P2Index, P1Index, Has1At, Has2At, Has3At;
    forall t | 0 <= t < KERNEL_SIZE
      ensures PageOk(pt.mem, mv, t)
    {
      WindowIndex(mv, t);
      BuiltAt(pt.mem, 512, CeilDiv(pt.totalSize, PAGE_SIZE), mv + t);
    }
  }

  /** Map `n` pages of the window from offset `t` to the same offset of the reserved memory; results are ignored. */
  method MapRange(pt: PageTables, mv: nat, ghost limit: nat, t: nat, n: nat)
    requires FirmwareState(pt, mv, limit) && t % 4096 == 0 && t + n * 4096 <= KERNEL_SIZE
    modifies pt.words, pt`mem, pt`nextBlock, pt`nodes
    ensures FirmwareState(pt, mv, limit) && MappedFrom(pt.mem, mv, t, t + n * 4096)
    ensures pt.physBase == old(pt.mem).base == pt.mem.base && OnlyMore(old(pt.mem), pt.mem, mv)
    ensures KeptLow(old(pt.mem), pt.mem)
  {
    hide Path, OffsetKept, GoodWindow, Missing, Needed, PageOk, P4Index, P3Index, P2Index, P1Index, TablesAdded,
        OnePathSet, Has1At;
    WindowFacts(mv);
    for i := 0 to n
      invariant FirmwareState(pt, mv, limit) && MappedFrom(pt.mem, mv, t, t + i * 4096)
      invariant pt.mem.base == old(pt.mem).base && OnlyMore(old(pt.mem), pt.mem, mv) && KeptLow(old(pt.mem), pt.mem)
    {
      ghost var m := pt.mem;
      MapOne(pt, mv, limit, t + i * 4096);
      KeptLowChain(old(pt.mem), m, pt.mem);
    }
  }

  /** Pages of the window that were mapped stay mapped. */
  ghost predicate OnlyMore(m: Mem, m': Mem, mv: nat)
    requires mv + KERNEL_SIZE <= W
  {
    forall u | 0 <= u < KERNEL_SIZE :: PageMapped(m, mv, u) ==> PageMapped(m', mv, u)
  }

  /** Walks through the low mapping and the physical window end as before. */
  ghost predicate KeptLow(m: Mem, m': Mem) {
    forall j4, j3, j2, j1 | (j4 == 0 || j4 == 510) && 0 <= j3 < ENTRIES && 0 <= j2 < ENTRIES && 0 <= j1 < ENTRIES ::
      Path(m', m.base, j4, j3, j2, j1) == Path(m, m.base, j4, j3, j2, j1)
  }

  lemma KeptLowChain(m0: Mem, m1: Mem, m2: Mem)
    requires KeptLow(m0, m1) && KeptLow(m1, m2) && m0.base == m1.base
    ensures KeptLow(m0, m2)
  {
    hide Path;
  }

  lemma OnePathKeepsLow(m: Mem, m': Mem, virt: u64, e: u64)
    requires OnePathSet(m, m', P4Index(virt), P3Index(virt), P2Index(virt), P1Index(virt), e)
    requires 1 <= P4Index(virt) <= 509
    ensures KeptLow(m, m')
  {
    hide Path, P4Index, P3Index, P2Index, P1Index;
  }

  method MapOne(pt: PageTables, mv: nat, ghost limit: nat, t: nat)
    requires FirmwareState(pt, mv, limit) && t % 4096 == 0 && t + 4096 <= KERNEL_SIZE && mv + KERNEL_SIZE <= W
    modifies pt.words, pt`mem, pt`nextBlock, pt`nodes
    ensures FirmwareState(pt, mv, limit) && pt.mem.base == old(pt.mem).base
    ensures OnlyMore(old(pt.mem), pt.mem, mv) && MappedFrom(pt.mem, mv, t, t + 4096) && KeptLow(old(pt.mem), pt.mem)
  {
    hide Path, OffsetKept, GoodWindow, Missing, Needed, PageOk, P4Index, P3Index, P2Index, P1Index, TablesAdded,
        OnePathSet, Has1At, Tree;
    WindowFacts(mv);
    WindowIndex(mv, t);
    ghost var m, nodes := pt.mem, pt.nodes;
    NeededFits(nodes, mv, mv + t);
    var r := pt.MapPage(pt.physBase + t, mv + t);
    MissingPays(nodes, pt.nodes, mv, mv + t);
    if r == 0 {
      MapKeepsOffset(m, pt.mem, mv, t);
      OnePathKeepsLow(m, pt.mem, mv + t, pt.physBase + t + FLAGS);
    } else {
      StillMapped(m, mv, t);
    }
  }

  lemma WindowFacts(mv: nat)
    requires GoodWindow(mv)
    ensures mv % 4096 == 0 && mv + KERNEL_SIZE <= W
  {
  }

  lemma NeededFits(nodes: seq<Node>, mv: nat, v: u64)
    requires mv <= v < mv + KERNEL_SIZE
    ensures Needed(nodes, P4Index(v), P3Index(v), P2Index(v)) <= Missing(nodes, mv)
  {
    hide P4Index, P3Index, P2Index, Has1At, Has2At, Has3At, Needed;
    WindowRegions(mv, v);
    NeededOf(nodes, v);
  }

  lemma StillMapped(m: Mem, mv: nat, t: nat)
    requires mv % 4096 == 0 && mv + KERNEL_SIZE <= W && t % 4096 == 0 && t < KERNEL_SIZE
    requires PathOf(m, m.base, mv + t) != Fault
    ensures MappedFrom(m, mv, t, t + 4096)
  {
    hide Path, P4Index, P3Index, P2Index, P1Index;
    forall u | t <= u < t + 4096
      ensures PageMapped(m, mv, u)
    {
      SameIndicesSamePage(mv, u, t);
      SamePathIfSameIndices(m, mv, u, t);
    }
  }

  /** "JPenguin" */
  const SIGNATURE: seq<byte> := [0x4a, 0x50, 0x65, 0x6e, 0x67, 0x75, 0x69, 0x6e]

  /** The signature check; a file that ends before its signature does fails it. */
  predicate Signed(data: seq<byte>) {
    |data| >= 8 && data[..8] == SIGNATURE
  }

  /** A file is signed exactly when it starts with these eight characters. */
  lemma SignedMeans(data: seq<byte>)
    ensures Signed(data) <==> |data| >= 8 && forall i | 0 <= i < 8 :: data[i] as int == "JPenguin"[i] as int
  {
    if |data| >= 8 {
      var head := data[..8];
      assert forall i | 0 <= i < 8 :: head[i] == data[i];
      if forall i | 0 <= i < 8 :: data[i] as int == "JPenguin"[i] as int {
        assert forall i | 0 <= i < 8 :: head[i] as int == "JPenguin"[i] as int;
        SignatureText(head);
      }
    }
  }

  lemma SignatureText(head: seq<byte>)
    requires |head| == 8 && forall i | 0 <= i < 8 :: head[i] as int == "JPenguin"[i] as int
    ensures head == SIGNATURE
  {
    assert head[0] as int == 'J' as int && head[1] as int == 'P' as int && head[2] as int == 'e' as int;
    assert head[3] as int == 'n' as int && head[4] as int == 'g' as int && head[5] as int == 'u' as int;
    assert head[6] as int == 'i' as int && head[7] as int == 'n' as int;
  }

  function Zeros(n: nat): (z: seq<byte>)
    ensures |z| == n && forall i | 0 <= i < n :: z[i] == 0
  {
    seq(n, _ => 0)
  }

  /** Reserved memory `m` with the image at `start`: KERNEL_OFFSET zeros, the file, and zeros for the rest of 4 MiB. */
  function Placed(m: seq<byte>, start: nat, data: seq<byte>): (m': seq<byte>)
    requires start + KERNEL_SIZE <= |m| && |data| + KERNEL_OFFSET <= KERNEL_SIZE
    ensures |m'| == |m|
  {
    Put(m, start, Zeros(KERNEL_OFFSET) + data + Zeros(KERNEL_SIZE - |data| - KERNEL_OFFSET))
  }

  /** The memset, memcpy, memset of load_firmware. */
  method PlaceImage(ram: array<byte>, start: nat, data: seq<byte>)
    requires start + KERNEL_SIZE <= ram.Length && |data| + KERNEL_OFFSET <= KERNEL_SIZE
    modifies ram
    ensures ram[..] == Placed(old(ram[..]), start, data)
  {
    hide Put;
    var a, z := Zeros(KERNEL_OFFSET), Zeros(KERNEL_SIZE - |data| - KERNEL_OFFSET);
    PutAfter(ram[..], start, a, data);
    PutAfter(ram[..], start, a + data, z);
    Blit(a, ram, start);
    Blit(data, ram, start + KERNEL_OFFSET);
    Blit(z, ram, start + KERNEL_OFFSET + |data|);
  }

  lemma PutAfter(s: seq<byte>, at: nat, x: seq<byte>, y: seq<byte>)
    requires at + |x| + |y| <= |s|
    ensures Put(Put(s, at, x), at + |x|, y) == Put(s, at, x + y)
  {
  }

  /** The file's bytes are behind the offset, everything outside the 4 MiB is as before. */
  lemma PlacedByte(m: seq<byte>, start: nat, data: seq<byte>, t: nat)
    requires start + KERNEL_SIZE <= |m| && |data| + KERNEL_OFFSET <= KERNEL_SIZE && t < |m|
    ensures Placed(m, start, data)[t] ==
              if t < start || start + KERNEL_SIZE <= t then m[t]
              else if start + KERNEL_OFFSET <= t < start + KERNEL_OFFSET + |data| then data[t - start - KERNEL_OFFSET]
              else 0
  {
    hide Put;
    var all := Zeros(KERNEL_OFFSET) + data + Zeros(KERNEL_SIZE - |data| - KERNEL_OFFSET);
    PutByte(m, start, all, t);
  }

  /** The stack area is clear after loading. */
  ghost predicate StackClear(m: seq<byte>, start: nat, data: seq<byte>)
    requires start + KERNEL_SIZE <= |m| && |data| + KERNEL_OFFSET <= KERNEL_SIZE
  {
    forall t | KERNEL_SIZE - KERNEL_STACK_SIZE <= t < KERNEL_SIZE :: Placed(m, start, data)[t] == 0
  }

  /**
   The size check does not count the offset: of the sizes it accepts, exactly those that leave room for the offset too
   keep every image out of the stack area.
   */
  lemma StackClearIffOffsetFits(m: seq<byte>, start: nat, n: nat)
    requires start + KERNEL_SIZE <= |m| && 0 < n && start + n + KERNEL_STACK_SIZE <= KERNEL_SIZE
    ensures start + KERNEL_OFFSET + n + KERNEL_STACK_SIZE <= KERNEL_SIZE <==>
              forall data | |data| == n :: StackClear(m, start, data)
  {
    hide Placed;
    if start + KERNEL_OFFSET + n + KERNEL_STACK_SIZE <= KERNEL_SIZE {
      forall data, t | |data| == n && KERNEL_SIZE - KERNEL_STACK_SIZE <= t < KERNEL_SIZE
        ensures Placed(m, start, data)[t] == 0
      {
        PlacedByte(m, start, data, t);
      }
    } else {
      var data := seq(n, _ => 1 as byte);
      var t := Max(KERNEL_SIZE - KERNEL_STACK_SIZE, start + KERNEL_OFFSET);
      PlacedByte(m, start, data, t);
      assert Placed(m, start, data)[t] != 0;
      assert !StackClear(m, start, data);
    }
  }

  /**
   load_firmware: the checks, the image, then the image pages and the stack pages; already mapped pages are left alone.
   `ram` is the reserved memory byte by byte, the tables at its start.
   */
  method LoadFirmware(pt: PageTables, ram: array<byte>, mv: nat, ghost limit: nat, data: seq<byte>)
      returns (r: LoadResult)
    requires FirmwareState(pt, mv, limit)
    requires pt.tableBreak - pt.physBase + KERNEL_STACK_SIZE <= KERNEL_SIZE
    requires pt.tableBreak - pt.physBase + KERNEL_SIZE <= ram.Length
    modifies pt.words, pt`mem, pt`nextBlock, pt`nodes, ram
    ensures FirmwareState(pt, mv, limit) && pt.mem.base == old(pt.mem).base && OnlyMore(old(pt.mem), pt.mem, mv)
    ensures KeptLow(old(pt.mem), pt.mem)
    ensures r == BadSignature <==> !Signed(data)
    ensures r == TooLarge <==>
              Signed(data) && |data| > KERNEL_SIZE - KERNEL_STACK_SIZE - (pt.tableBreak - pt.physBase)
    ensures r != Loaded ==> ram[..] == old(ram[..])
    ensures
      var start := pt.tableBreak - pt.physBase;
      r == Loaded ==>
        && |data| + KERNEL_OFFSET <= KERNEL_SIZE && ram[..] == Placed(old(ram[..]), start, data)
        && start + RoundUp(|data| + KERNEL_OFFSET, PAGE_SIZE) <= KERNEL_SIZE
        && MappedFrom(pt.mem, mv, start, start + RoundUp(|data| + KERNEL_OFFSET, PAGE_SIZE))
        && MappedFrom(pt.mem, mv, KERNEL_SIZE - KERNEL_STACK_SIZE, KERNEL_SIZE)
  {
    hide FirmwareState, Placed, Signed;
    FirmwareFacts(pt, mv, limit);
    var tableSize := pt.tableBreak - pt.physBase;
    if !Signed(data) {
      return BadSignature;
    }
    if |data| > KERNEL_SIZE - KERNEL_STACK_SIZE - tableSize {
      return TooLarge;
    }
    PlaceImage(ram, tableSize, data);
    var numPages := (|data| + KERNEL_OFFSET + PAGE_SIZE - 1) / PAGE_SIZE;
    ImageFits(tableSize, |data|);
    MapRange(pt, mv, limit, tableSize, numPages);
    ghost var m := pt.mem;
    var stackBase := KERNEL_SIZE - KERNEL_STACK_SIZE;
    MapRange(pt, mv, limit, stackBase, KERNEL_STACK_SIZE / PAGE_SIZE);
    KeptLowChain(old(pt.mem), m, pt.mem);
    return Loaded;
  }

  /** Byte `k` of a loaded file is found, through the tables, at its place in the window. */
  lemma ImageByteFound(pt: PageTables, mv: nat, limit: nat, was: seq<byte>, start: nat, data: seq<byte>, k: nat)
    requires FirmwareState(pt, mv, limit) && start + KERNEL_SIZE <= |was|
    requires start + RoundUp(|data| + KERNEL_OFFSET, PAGE_SIZE) <= KERNEL_SIZE && k < |data|
    requires MappedFrom(pt.mem, mv, start, start + RoundUp(|data| + KERNEL_OFFSET, PAGE_SIZE))
    requires Canonical(mv + start + KERNEL_OFFSET + k)
    ensures
      var p := Walk(pt.mem, pt.physBase, mv + start + KERNEL_OFFSET + k);
      p == Some(pt.physBase + (start + KERNEL_OFFSET + k)) && Placed(was, start, data)[p.value - pt.physBase] == data[k]
  {
    hide FirmwareState, PageMapped, Placed, Canonical;
    var t := start + KERNEL_OFFSET + k;
    RoundUpCovers(|data| + KERNEL_OFFSET);
    FirmwareFacts(pt, mv, limit);
    assert PageMapped(pt.mem, mv, t);
    FirmwareTranslation(pt, mv, limit, t);
    PlacedByte(was, start, data, t);
  }

  lemma RoundUpCovers(x: nat)
    ensures RoundUp(x, PAGE_SIZE) >= x
  {
  }

  lemma FirmwareFacts(pt: PageTables, mv: nat, limit: nat)
    requires FirmwareState(pt, mv, limit)
    ensures mv % 4096 == 0 && mv + KERNEL_SIZE <= W && pt.mem.base == pt.physBase
    ensures pt.physBase <= pt.tableBreak && (pt.tableBreak - pt.physBase) % 4096 == 0
  {
    hide Tree, OffsetKept, Missing, P4Index;
  }

  lemma ImageFits(tableSize: nat, size: nat)
    requires tableSize % 4096 == 0 && tableSize + size + KERNEL_STACK_SIZE <= KERNEL_SIZE
    ensures
      var n := (size + KERNEL_OFFSET + PAGE_SIZE - 1) / PAGE_SIZE;
      n * 4096 == RoundUp(size + KERNEL_OFFSET, PAGE_SIZE) && tableSize + n * 4096 <= KERNEL_SIZE
  {
  }

  lemma SamePathIfSameIndices(m: Mem, mv: nat, t: nat, u: nat)
    requires mv + KERNEL_SIZE <= W && t < KERNEL_SIZE && u < KERNEL_SIZE && SamePage(mv + t, mv + u)
    ensures PathOf(m, m.base, mv + t) == PathOf(m, m.base, mv + u)
  {
  }

  lemma SameOffset(mv: nat, t: nat)
    requires mv % 4096 == 0
    ensures (mv + t) % 4096 == t % 4096 && t - t % 4096 == 4096 * (t / 4096)
  {
  }

  /** In a firmware state, a mapped byte of the window translates with the one offset of the reserved memory. */
  lemma FirmwareTranslation(pt: PageTables, mv: nat, limit: nat, t: nat)
    requires FirmwareState(pt, mv, limit) && t < KERNEL_SIZE && PageMapped(pt.mem, mv, t) && Canonical(mv + t)
    ensures Walk(pt.mem, pt.physBase, mv + t) == Some(pt.physBase + t)
  {
    hide Path, Tree, Missing, P4Index, P3Index, P2Index, P1Index, Frame, Frame1G, Frame2M;
    assert PageOk(pt.mem, mv, t);
    LowLeaf(pt.physBase, t / 4096);
    SameOffset(mv, t);
  }

  // ---- The driver from init_memory on ----

  const MEM_START: int := 0x4000_0000
  const MEM_SIZE: int := 0x2000_0000

  /**
   init_memory, then any number of load_firmware calls with any files: at most 7 blocks are taken, the window keeps its
   one offset, the mappings made at the start still stand, and no image byte is written over the tables.
   */
  method Boot(mv: nat, init: (nat, nat) -> u64, ram: array<byte>, images: seq<seq<byte>>) returns (pt: PageTables)
    requires GoodWindow(mv) && ram.Length == MEM_SIZE
    modifies ram
    ensures FirmwareState(pt, mv, 3 + CeilDiv(MEM_SIZE, GIB) + CeilDiv(MEM_SIZE, HUGE_PAGE_SIZE) + 7)
    ensures pt.physBase == pt.mem.base == MEM_START && Still(pt.mem, CeilDiv(MEM_SIZE, PAGE_SIZE))
    ensures pt.tableBreak == MEM_START + NumBlocks(MEM_SIZE) * 4096
    ensures ram[..NumBlocks(MEM_SIZE) * 4096] == old(ram[..NumBlocks(MEM_SIZE) * 4096])
  {
    hide FirmwareState, Built, Still, GoodWindow, Placed;
    pt := new PageTables(MEM_START, MEM_SIZE, init);
    pt.InitPageTable();
    FirmwareStart(pt, mv);
    ghost var limit, first, tables := |pt.nodes| + 7, pt.mem, NumBlocks(MEM_SIZE) * 4096;
    FirmwareFacts(pt, mv, limit);
    StillKept(first, first, CeilDiv(MEM_SIZE, PAGE_SIZE));
    for i := 0 to |images|
      invariant fresh(pt) && fresh(pt.words) && pt.physBase == pt.mem.base == MEM_START
      invariant FirmwareState(pt, mv, limit) && KeptLow(first, pt.mem)
      invariant pt.tableBreak == MEM_START + tables
      invariant ram[..tables] == old(ram[..tables])
    {
      ghost var m := pt.mem;
      ghost var was := ram[..];
      var r := LoadFirmware(pt, ram, mv, limit, images[i]);
      KeptLowChain(first, m, pt.mem);
      if r == Loaded {
        PlacedAbove(was, tables, images[i]);
        assert ram[..tables] == ram[..][..tables] && was[..tables] == old(ram[..tables]);
      }
    }
    StillKept(first, pt.mem, CeilDiv(MEM_SIZE, PAGE_SIZE));
  }

  lemma PlacedAbove(m: seq<byte>, start: nat, data: seq<byte>)
    requires start + KERNEL_SIZE <= |m| && |data| + KERNEL_OFFSET <= KERNEL_SIZE
    ensures Placed(m, start, data)[..start] == m[..start]
  {
    hide Put;
    PutElsewhere(m, start, Zeros(KERNEL_OFFSET) + data + Zeros(KERNEL_SIZE - |data| - KERNEL_OFFSET), 0, start);
    assert Placed(m, start, data)[0..start] == Placed(m, start, data)[..start] && m[0..start] == m[..start];
  }

  /** The low mapping and the physical window as init_page_table made them. */
  ghost predicate Still(m: Mem, count: nat) {
    forall j4, j3, j2, j1 | (j4 == 0 || j4 == 510) && 0 <= j3 < ENTRIES && 0 <= j2 < ENTRIES && 0 <= j1 < ENTRIES ::
      LeafOk(m, 512, count, j4, j3, j2, j1)
  }

  lemma StillKept(m: Mem, m': Mem, count: nat)
    requires Built(m, 512, count) && (m' == m || KeptLow(m, m')) && m.base == m'.base
    ensures Still(m', count) && KeptLow(m, m)
  {
    hide Path;
    forall j4, j3, j2, j1 | (j4 == 0 || j4 == 510) && 0 <= j3 < ENTRIES && 0 <= j2 < ENTRIES && 0 <= j1 < ENTRIES
      ensures LeafOk(m', 512, count, j4, j3, j2, j1)
    {
      assert LeafOk(m, 512, count, j4, j3, j2, j1);
      assert Path(m', m.base, j4, j3, j2, j1) == Path(m, m.base, j4, j3, j2, j1);
    }
  }

  /** So after any number of firmware loads the two mappings translate as at the start. */
  lemma StillTranslation(m: Mem, size: nat, v: u64)
    requires Still(m, CeilDiv(size, PAGE_SIZE)) && size <= P4_SPAN
    requires m.base % 4096 == 0 && m.base + size + PAGE_SIZE < ADDR_LIMIT
    requires v < P4_SPAN || W - 2 * P4_SPAN <= v < W - P4_SPAN
    ensures Walk(m, m.base, v) ==
              if v < RoundUp(size, PAGE_SIZE) then Some(m.base + v)
              else if v >= W - 2 * P4_SPAN then Some(v - (W - 2 * P4_SPAN))
              else None
  {
    hide Path, Still, P4Index, P3Index, P2Index, P1Index, Frame, Frame1G, Frame2M;
    WhereIs(v);
    IndexBounds(v);
    StillAt(m, CeilDiv(size, PAGE_SIZE), v);
    if P4Index(v) == 0 {
      LowPageNumber(v);
      PageBelow(v, size);
      if v < RoundUp(size, PAGE_SIZE) {
        LowLeaf(m.base, v / 4096);
      }
    } else {
      HugeLeaf(P3Index(v));
      WindowOffset(v);
    }
  }

  lemma StillAt(m: Mem, count: nat, v: u64)
    requires Still(m, count) && (P4Index(v) == 0 || P4Index(v) == 510)
    ensures LeafOk(m, 512, count, P4Index(v), P3Index(v), P2Index(v), P1Index(v))
  {
  }
}
