/** The driver's tables as a tree: what one new table and one new leaf do to every walk. */
module PageTree {
  import opened Machine
  import opened PageWalk

  const FLAGS: int := 99        // P | W | A | D
  const FLAGS_USER: int := 103  // and U
  const FLAGS_HUGE: int := 227  // P | W | A | D | H

  /** Where a block hangs: its level, the block above it and the slot there. The root is its own parent. */
  datatype Node = Node(level: int, parent: nat, index: nat)

  const ROOT: Node := Node(4, 0, 511)

  /** `e` is a table pointer to block `c`. */
  predicate Points(base: nat, e: u64, c: nat) {
    e == base + 4096 * c + FLAGS || e == base + 4096 * c + FLAGS_USER
  }

  /** The block that the frame of `e` is, if it is one. */
  function Child(base: nat, e: u64): int {
    (Frame(e) - base) / 4096
  }

  predicate Aligned(base: nat, n: nat) {
    base % 4096 == 0 && base + 4096 * n < ADDR_LIMIT
  }

  /** A slot of a table above level 1 is empty, a large page of the physical window, or points to a block that hangs
      exactly there. */
  ghost predicate SlotOk(m: Mem, nodes: seq<Node>, b: nat, i: nat)
    requires b < |nodes| <= |m.blocks| && i < ENTRIES
  {
    var e := m.blocks[b][i];
    || e == 0
    || (nodes[b] == Node(3, 0, 510) && Present(e) && Big(e))
    || (var c := Child(m.base, e);
        0 < c < |nodes| && Points(m.base, e, c) && nodes[c] == Node(nodes[b].level - 1, b, i))
  }

  /** Every block below the root is reached from the slot its node names. */
  ghost predicate Hangs(m: Mem, nodes: seq<Node>, c: nat)
    requires 0 < c < |nodes| <= |m.blocks|
  {
    var n := nodes[c];
    && 1 <= n.level <= 3 && n.parent < |nodes| && n.index < ENTRIES
    && nodes[n.parent].level == n.level + 1
    && !(n.parent == 0 && n.index == 511)
    && Points(m.base, m.blocks[n.parent][n.index], c)
  }

  /** Block 0 is the self-mapped root; all other allocated blocks form a tree under it. */
  ghost predicate Tree(m: Mem, nodes: seq<Node>) {
    && 0 < |nodes| <= |m.blocks| && Aligned(m.base, |m.blocks|)
    && nodes[0] == ROOT && Points(m.base, m.blocks[0][511], 0)
    && (forall b | 0 <= b < |nodes| :: 1 <= nodes[b].level <= 4)
    && (forall c | 0 < c < |nodes| :: Hangs(m, nodes, c))
    && (forall b, i | 0 <= b < |nodes| && nodes[b].level >= 2 && 0 <= i < ENTRIES && !(b == 0 && i == 511) ::
          SlotOk(m, nodes, b, i))
  }

  lemma PointerBits(base: nat, n: nat, e: u64, c: nat)
    requires Aligned(base, n) && c < n && Points(base, e, c)
    ensures Present(e) && !Big(e) && Frame(e) == base + 4096 * c && Child(base, e) == c
  {
    var a := base / 4096 + c;
    FlagBits(a, e - a * 4096);
    assert Frame(e) == a * 4096;
  }

  lemma FlagBits(a: nat, f: nat)
    requires (f == FLAGS || f == FLAGS_USER) && a * 4096 + 4096 <= ADDR_LIMIT
    ensures
      var e := a * 4096 + f;
      e % 2 == 1 && e / 128 == a * 32 && a * 32 % 2 == 0 && e % ADDR_LIMIT == e && e / 4096 == a
  {
  }

  lemma EntryAt(m: Mem, c: nat, i: nat)
    requires c < |m.blocks| && i < ENTRIES
    ensures Entry(m, m.base + 4096 * c, i) == m.blocks[c][i]
  {
    assert (m.base + 4096 * c - m.base) / 4096 == c;
  }

  /** One step down the tree: a present slot that is no large page leads to the block that hangs there. */
  lemma StepDown(m: Mem, nodes: seq<Node>, b: nat, i: nat) returns (c: nat)
    requires Tree(m, nodes) && b < |nodes| && nodes[b].level >= 2 && i < ENTRIES && !(b == 0 && i == 511)
    requires Present(m.blocks[b][i]) && !Big(m.blocks[b][i])
    ensures 0 < c < |nodes| && nodes[c] == Node(nodes[b].level - 1, b, i)
    ensures Points(m.base, m.blocks[b][i], c) && Frame(m.blocks[b][i]) == m.base + 4096 * c
    ensures forall x | 0 <= x < ENTRIES :: Entry(m, Frame(m.blocks[b][i]), x) == m.blocks[c][x]
  {
    assert SlotOk(m, nodes, b, i);
    c := Child(m.base, m.blocks[b][i]);
    PointerBits(m.base, |m.blocks|, m.blocks[b][i], c);
    forall x | 0 <= x < ENTRIES
      ensures Entry(m, m.base + 4096 * c, x) == m.blocks[c][x]
    {
      EntryAt(m, c, x);
    }
  }

  // ---- Adding an empty table ----

  function WithSlot(m: Mem, b: nat, i: nat, e: u64): (m': Mem)
    requires b < |m.blocks| && i < ENTRIES
    ensures |m'.blocks| == |m.blocks| && m'.base == m.base
  {
    m.(blocks := m.blocks[b := m.blocks[b][i := e]])
  }

  function Zeroed(m: Mem, c: nat): (m': Mem)
    requires c < |m.blocks|
    ensures |m'.blocks| == |m.blocks| && m'.base == m.base
  {
    m.(blocks := m.blocks[c := ZeroBlock()])
  }

  /** `*PTE(b, i) = alloc_block() | flags`, where the allocator hands out block number |nodes|. */
  function WithTable(m: Mem, c: nat, b: nat, i: nat, flags: nat): (m': Mem)
    requires b < c < |m.blocks| && i < ENTRIES && Aligned(m.base, |m.blocks|) && flags < 4096
    ensures |m'.blocks| == |m.blocks| && m'.base == m.base
  {
    WithSlot(Zeroed(m, c), b, i, m.base + 4096 * c + flags)
  }

  ghost predicate FreeSlot(m: Mem, nodes: seq<Node>, b: nat, i: nat) {
    && b < |nodes| < |m.blocks| && i < ENTRIES
    && nodes[b].level >= 2 && !(b == 0 && i == 511)
    && m.blocks[b][i] == 0
  }

  lemma NewSlots(m: Mem, c: nat, b: nat, i: nat, flags: nat)
    requires b < c < |m.blocks| && i < ENTRIES && Aligned(m.base, |m.blocks|) && flags < 4096
    ensures
      var m' := WithTable(m, c, b, i, flags);
      && m'.blocks[b][i] == m.base + 4096 * c + flags
      && (forall x | 0 <= x < ENTRIES :: m'.blocks[c][x] == 0)
      && (forall y, x | 0 <= y < |m.blocks| && 0 <= x < ENTRIES && y != c && !(y == b && x == i) ::
            m'.blocks[y][x] == m.blocks[y][x])
  {
  }

  lemma AddTableKeepsTree(m: Mem, nodes: seq<Node>, b: nat, i: nat, flags: nat)
    requires Tree(m, nodes) && FreeSlot(m, nodes, b, i) && (flags == FLAGS || flags == FLAGS_USER)
    ensures Tree(WithTable(m, |nodes|, b, i, flags), nodes + [Node(nodes[b].level - 1, b, i)])
  {
    hide WithTable, Present, Big, Frame;
    var c := |nodes|;
    var m' := WithTable(m, c, b, i, flags);
    var nodes' := nodes + [Node(nodes[b].level - 1, b, i)];
    NewSlots(m, c, b, i, flags);
    PointerBits(m.base, |m.blocks|, m'.blocks[b][i], c);
    forall x | 0 < x < |nodes'|
      ensures Hangs(m', nodes', x)
    {
      if x < c {
        assert Hangs(m, nodes, x);
        RootOrBelow(m, nodes, x);
      }
    }
    forall y, x | 0 <= y < |nodes'| && nodes'[y].level >= 2 && 0 <= x < ENTRIES && !(y == 0 && x == 511)
      ensures SlotOk(m', nodes', y, x)
    {
      if y < c && !(y == b && x == i) {
        assert SlotOk(m, nodes, y, x);
      }
    }
  }

  /** The slot that holds a block is not empty, so it is not the slot being filled. */
  lemma RootOrBelow(m: Mem, nodes: seq<Node>, x: nat)
    requires Tree(m, nodes) && 0 < x < |nodes|
    ensures nodes[x].parent < |nodes| && nodes[x].index < ENTRIES
    ensures m.blocks[nodes[x].parent][nodes[x].index] != 0
  {
    assert Hangs(m, nodes, x);
  }

  /** A pointer to a block whose slots are all empty leads nowhere. */
  lemma EmptyTableFaults(m: Mem, e: u64, c: nat, x: nat)
    requires Aligned(m.base, |m.blocks|) && c < |m.blocks| && Points(m.base, e, c) && x < ENTRIES
    requires forall y | 0 <= y < ENTRIES :: m.blocks[c][y] == 0
    ensures !Big(e) && !Present(Entry(m, Frame(e), x))
  {
    PointerBits(m.base, |m.blocks|, e, c);
    EntryAt(m, c, x);
  }

  /** An empty table changes no translation outside the recursive window. */
  lemma AddTablePath(m: Mem, nodes: seq<Node>, b: nat, i: nat, flags: nat, j4: nat, j3: nat, j2: nat, j1: nat)
    requires Tree(m, nodes) && FreeSlot(m, nodes, b, i) && (flags == FLAGS || flags == FLAGS_USER)
    requires j4 < 511 && j3 < ENTRIES && j2 < ENTRIES && j1 < ENTRIES
    ensures Path(WithTable(m, |nodes|, b, i, flags), m.base, j4, j3, j2, j1) == Path(m, m.base, j4, j3, j2, j1)
  {
    hide WithTable, Big, Frame, Entry, SlotOk, Hangs;
    var c := |nodes|;
    var m' := WithTable(m, c, b, i, flags);
    var p := m'.blocks[b][i];
    NewSlots(m, c, b, i, flags);
    RootEntry(m, j4);
    RootEntry(m', j4);
    if b == 0 && i == j4 {
      EmptyTableFaults(m', p, c, j3);
      return;
    }
    if !Present(m.blocks[0][j4]) || Big(m.blocks[0][j4]) {
      return;
    }
    var c3 := StepDown(m, nodes, 0, j4);
    EntryAt(m', c3, j3);
    if b == c3 && i == j3 {
      EmptyTableFaults(m', p, c, j2);
      return;
    }
    if !Present(m.blocks[c3][j3]) || Big(m.blocks[c3][j3]) {
      return;
    }
    var c2 := StepDown(m, nodes, c3, j3);
    EntryAt(m', c2, j2);
    if b == c2 && i == j2 {
      EmptyTableFaults(m', p, c, j1);
      return;
    }
    if !Present(m.blocks[c2][j2]) || Big(m.blocks[c2][j2]) {
      return;
    }
    var c1 := StepDown(m, nodes, c2, j2);
    EntryAt(m', c1, j1);
  }

  lemma RootEntry(m: Mem, j: nat)
    requires |m.blocks| > 0 && j < ENTRIES
    ensures Entry(m, m.base, j) == m.blocks[0][j]
  {
    EntryAt(m, 0, j);
  }

  // ---- Setting a leaf ----

  /** Block `c` is the level-3 table that index i4 leads to. */
  ghost predicate At3(nodes: seq<Node>, c: nat, i4: nat) {
    c < |nodes| && nodes[c] == Node(3, 0, i4)
  }

  /** Block `c` is the level-2 table that indices i4, i3 lead to. */
  ghost predicate At2(nodes: seq<Node>, c: nat, i4: nat, i3: nat) {
    && c < |nodes| && nodes[c].level == 2 && nodes[c].index == i3
    && At3(nodes, nodes[c].parent, i4)
  }

  /** Block `c` is the level-1 table that indices i4, i3, i2 lead to. */
  ghost predicate At1(nodes: seq<Node>, c: nat, i4: nat, i3: nat, i2: nat) {
    && c < |nodes| && nodes[c].level == 1 && nodes[c].index == i2
    && At2(nodes, nodes[c].parent, i4, i3)
  }

  lemma SetLeafKeepsTree(m: Mem, nodes: seq<Node>, b: nat, i: nat, e: u64)
    requires Tree(m, nodes) && b < |nodes| && nodes[b].level == 1 && i < ENTRIES
    ensures Tree(WithSlot(m, b, i, e), nodes)
  {
    hide Present, Big, Frame, Points;
    var m' := WithSlot(m, b, i, e);
    forall c | 0 < c < |nodes|
      ensures Hangs(m', nodes, c)
    {
      assert Hangs(m, nodes, c);
    }
    forall y, x | 0 <= y < |nodes| && nodes[y].level >= 2 && 0 <= x < ENTRIES && !(y == 0 && x == 511)
      ensures SlotOk(m', nodes, y, x)
    {
      assert SlotOk(m, nodes, y, x);
      assert m'.blocks[y] == m.blocks[y];
    }
  }

  /** Writing slot `i` of the level-1 table under (i4, i3, i2) changes that page's walk and no other outside the
      window. */
  lemma SetLeafPath(m: Mem, nodes: seq<Node>, b: nat, i: nat, e: u64, i4: nat, i3: nat, i2: nat,
                    j4: nat, j3: nat, j2: nat, j1: nat)
    requires Tree(m, nodes) && At1(nodes, b, i4, i3, i2) && i < ENTRIES
    requires j4 < 511 && j3 < ENTRIES && j2 < ENTRIES && j1 < ENTRIES
    ensures (j4, j3, j2, j1) != (i4, i3, i2, i) ==>
              Path(WithSlot(m, b, i, e), m.base, j4, j3, j2, j1) == Path(m, m.base, j4, j3, j2, j1)
  {
    hide WithSlot, Big, Frame, Entry, SlotOk, Hangs;
    var m' := WithSlot(m, b, i, e);
    SlotFrame(m, b, i, e);
    RootEntry(m, j4);
    RootEntry(m', j4);
    if !Present(m.blocks[0][j4]) || Big(m.blocks[0][j4]) {
      return;
    }
    var c3 := StepDown(m, nodes, 0, j4);
    EntryAt(m', c3, j3);
    if !Present(m.blocks[c3][j3]) || Big(m.blocks[c3][j3]) {
      return;
    }
    var c2 := StepDown(m, nodes, c3, j3);
    EntryAt(m', c2, j2);
    if !Present(m.blocks[c2][j2]) || Big(m.blocks[c2][j2]) {
      return;
    }
    var c1 := StepDown(m, nodes, c2, j2);
    EntryAt(m', c1, j1);
  }

  lemma SlotFrame(m: Mem, b: nat, i: nat, e: u64)
    requires b < |m.blocks| && i < ENTRIES
    ensures
      var m' := WithSlot(m, b, i, e);
      && m'.blocks[b][i] == e
      && (forall y, x | 0 <= y < |m.blocks| && 0 <= x < ENTRIES && !(y == b && x == i) ::
            m'.blocks[y][x] == m.blocks[y][x])
  {
  }

  /** The slot that holds block `c` is a pointer to it. */
  lemma LinkBits(m: Mem, nodes: seq<Node>, c: nat)
    requires Tree(m, nodes) && c < |nodes| && nodes[c].level <= 3
    ensures nodes[c].parent < |nodes| <= |m.blocks| && nodes[c].index < ENTRIES
    ensures nodes[nodes[c].parent].level == nodes[c].level + 1
    ensures
      var e := m.blocks[nodes[c].parent][nodes[c].index];
      Present(e) && !Big(e) && Frame(e) == m.base + 4096 * c
  {
    assert Hangs(m, nodes, c);
    PointerBits(m.base, |m.blocks|, m.blocks[nodes[c].parent][nodes[c].index], c);
  }

  /** What the walk of (i4, i3, i2, i) finds in a tree: the slot itself. */
  lemma PathUnder(m: Mem, nodes: seq<Node>, b: nat, i4: nat, i3: nat, i2: nat, i: nat)
    requires Tree(m, nodes) && At1(nodes, b, i4, i3, i2)
    requires i4 < 511 && i3 < ENTRIES && i2 < ENTRIES && i < ENTRIES
    ensures
      var b2 := nodes[b].parent;
      var e4, e3, e2, e1 := m.blocks[0][i4], m.blocks[nodes[b2].parent][i3], m.blocks[b2][i2], m.blocks[b][i];
      Path(m, m.base, i4, i3, i2, i) == if Present(e1) then Leaf4K(e4, e3, e2, e1) else Fault
  {
    hide Big, Frame, Entry, Tree, Present, Points, Hangs;
    var b2 := nodes[b].parent;
    var b3 := nodes[b2].parent;
    LinkBits(m, nodes, b);
    LinkBits(m, nodes, b2);
    LinkBits(m, nodes, b3);
    RootEntry(m, i4);
    EntryAt(m, b3, i3);
    EntryAt(m, b2, i2);
    EntryAt(m, b, i);
  }

  // ---- Large pages of the physical window ----

  lemma SetBigKeepsTree(m: Mem, nodes: seq<Node>, b: nat, i: nat, e: u64)
    requires Tree(m, nodes) && b < |nodes| && nodes[b] == Node(3, 0, 510) && i < ENTRIES
    requires m.blocks[b][i] == 0 && Present(e) && Big(e)
    ensures Tree(WithSlot(m, b, i, e), nodes)
  {
    hide Present, Big, Frame, Points;
    var m' := WithSlot(m, b, i, e);
    SlotFrame(m, b, i, e);
    forall c | 0 < c < |nodes|
      ensures Hangs(m', nodes, c)
    {
      assert Hangs(m, nodes, c);
      RootOrBelow(m, nodes, c);
    }
    forall y, x | 0 <= y < |nodes| && nodes[y].level >= 2 && 0 <= x < ENTRIES && !(y == 0 && x == 511)
      ensures SlotOk(m', nodes, y, x)
    {
      assert SlotOk(m, nodes, y, x);
    }
  }

  /** A large page in slot `i` of the window's table shows in the walks through (510, i) and in no others. */
  lemma SetBigPath(m: Mem, nodes: seq<Node>, b: nat, i: nat, e: u64, j4: nat, j3: nat, j2: nat, j1: nat)
    requires Tree(m, nodes) && b < |nodes| && nodes[b] == Node(3, 0, 510) && i < ENTRIES
    requires m.blocks[b][i] == 0 && Present(e) && Big(e)
    requires j4 < 511 && j3 < ENTRIES && j2 < ENTRIES && j1 < ENTRIES
    ensures
      var p := Path(WithSlot(m, b, i, e), m.base, j4, j3, j2, j1);
      if j4 == 510 && j3 == i then p == Leaf1G(m.blocks[0][510], e) else p == Path(m, m.base, j4, j3, j2, j1)
  {
    hide WithSlot, Frame, Entry, SlotOk, Hangs;
    var m' := WithSlot(m, b, i, e);
    SlotFrame(m, b, i, e);
    RootEntry(m, j4);
    RootEntry(m', j4);
    if j4 == 510 {
      BlockUnderRoot(m, nodes, b, 510);
      EntryAt(m, b, j3);
      EntryAt(m', b, j3);
    }
    if !Present(m.blocks[0][j4]) || Big(m.blocks[0][j4]) {
      return;
    }
    var c3 := StepDown(m, nodes, 0, j4);
    EntryAt(m', c3, j3);
    if !Present(m.blocks[c3][j3]) || Big(m.blocks[c3][j3]) {
      return;
    }
    var c2 := StepDown(m, nodes, c3, j3);
    EntryAt(m', c2, j2);
    if !Present(m.blocks[c2][j2]) || Big(m.blocks[c2][j2]) {
      return;
    }
    var c1 := StepDown(m, nodes, c2, j2);
    EntryAt(m', c1, j1);
  }

  lemma BlockUnderRoot(m: Mem, nodes: seq<Node>, b: nat, i: nat)
    requires Tree(m, nodes) && 0 < b < |nodes| && nodes[b] == Node(3, 0, i) && i < ENTRIES
    ensures Present(m.blocks[0][i]) && !Big(m.blocks[0][i]) && Frame(m.blocks[0][i]) == m.base + 4096 * b
  {
    assert Hangs(m, nodes, b);
    PointerBits(m.base, |m.blocks|, m.blocks[0][i], b);
  }

  // ---- The first table ----

  /** A zeroed block 0 with the self entry is a tree by itself, and walks nowhere outside the recursive window. */
  lemma FirstTable(m: Mem, e: u64)
    requires |m.blocks| > 0 && Aligned(m.base, |m.blocks|) && Points(m.base, e, 0)
    ensures Tree(WithSlot(Zeroed(m, 0), 0, 511, e), [ROOT])
    ensures forall j4, j3, j2, j1 | 0 <= j4 < 511 && 0 <= j3 < ENTRIES && 0 <= j2 < ENTRIES && 0 <= j1 < ENTRIES ::
              Path(WithSlot(Zeroed(m, 0), 0, 511, e), m.base, j4, j3, j2, j1) == Fault
  {
    var m' := WithSlot(Zeroed(m, 0), 0, 511, e);
    SlotFrame(Zeroed(m, 0), 0, 511, e);
    forall j4, j3, j2, j1 | 0 <= j4 < 511 && 0 <= j3 < ENTRIES && 0 <= j2 < ENTRIES && 0 <= j1 < ENTRIES
      ensures Path(m', m.base, j4, j3, j2, j1) == Fault
    {
      RootEntry(m', j4);
    }
  }
}
