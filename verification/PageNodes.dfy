/** Which tables exist: the tables along a virtual address, and how many are missing. */
module PageNodes {
  import opened Machine
  import opened PageWalk
  import opened PageTree

  ghost predicate Has3(nodes: seq<Node>, i4: nat) {
    exists c: nat :: At3(nodes, c, i4)
  }

  ghost predicate Has2(nodes: seq<Node>, i4: nat, i3: nat) {
    exists c: nat :: At2(nodes, c, i4, i3)
  }

  ghost predicate Has1(nodes: seq<Node>, i4: nat, i3: nat, i2: nat) {
    exists c: nat :: At1(nodes, c, i4, i3, i2)
  }

  /** Tables that must be added before the page under (i4, i3, i2) can get an entry. */
  ghost function Needed(nodes: seq<Node>, i4: nat, i3: nat, i2: nat): nat {
    if !Has3(nodes, i4) then 3
    else if !Has2(nodes, i4, i3) then 2
    else if !Has1(nodes, i4, i3, i2) then 1
    else 0
  }

  lemma Pointed(m: Mem, nodes: seq<Node>, c: nat)
    requires Tree(m, nodes) && 0 < c < |nodes|
    ensures nodes[c].parent < |nodes| && nodes[c].index < ENTRIES && nodes[nodes[c].parent].level == nodes[c].level + 1
    ensures Present(m.blocks[nodes[c].parent][nodes[c].index]) && !Big(m.blocks[nodes[c].parent][nodes[c].index])
    ensures Child(m.base, m.blocks[nodes[c].parent][nodes[c].index]) == c
  {
    assert Hangs(m, nodes, c);
    PointerBits(m.base, |m.blocks|, m.blocks[nodes[c].parent][nodes[c].index], c);
  }

  /** No two blocks hang in the same slot. */
  lemma NodesDistinct(m: Mem, nodes: seq<Node>, c: nat, d: nat)
    requires Tree(m, nodes) && 0 < c < |nodes| && 0 < d < |nodes| && nodes[c] == nodes[d]
    ensures c == d
  {
    Pointed(m, nodes, c);
    Pointed(m, nodes, d);
  }

  /** A slot outside the physical window is in use exactly when some block hangs there. */
  lemma SlotUsed(m: Mem, nodes: seq<Node>, b: nat, i: nat)
    requires Tree(m, nodes) && b < |nodes| && nodes[b].level >= 2 && i < ENTRIES && !(b == 0 && i == 511)
    requires nodes[b] != Node(3, 0, 510)
    ensures Present(m.blocks[b][i]) <==> exists c: nat :: 0 < c < |nodes| && nodes[c] == Node(nodes[b].level - 1, b, i)
    ensures Present(m.blocks[b][i]) ==> !Big(m.blocks[b][i])
    ensures !Present(m.blocks[b][i]) ==> m.blocks[b][i] == 0
  {
    assert SlotOk(m, nodes, b, i);
    if c: nat :| 0 < c < |nodes| && nodes[c] == Node(nodes[b].level - 1, b, i) {
      Pointed(m, nodes, c);
    }
    if m.blocks[b][i] != 0 {
      PointerBits(m.base, |m.blocks|, m.blocks[b][i], Child(m.base, m.blocks[b][i]));
    }
  }

  lemma RootSlotHas3(m: Mem, nodes: seq<Node>, i4: nat)
    requires Tree(m, nodes) && i4 < 511
    ensures Present(m.blocks[0][i4]) <==> Has3(nodes, i4)
  {
    SlotUsed(m, nodes, 0, i4);
    if Present(m.blocks[0][i4]) {
      var c: nat :| 0 < c < |nodes| && nodes[c] == Node(3, 0, i4);
      assert At3(nodes, c, i4);
    }
  }

  lemma SlotHas2(m: Mem, nodes: seq<Node>, b: nat, i4: nat, i3: nat)
    requires Tree(m, nodes) && At3(nodes, b, i4) && i4 < 510 && i3 < ENTRIES
    ensures Present(m.blocks[b][i3]) <==> Has2(nodes, i4, i3)
  {
    SlotUsed(m, nodes, b, i3);
    if Present(m.blocks[b][i3]) {
      var c: nat :| 0 < c < |nodes| && nodes[c] == Node(2, b, i3);
      assert At2(nodes, c, i4, i3);
    }
    if c: nat :| At2(nodes, c, i4, i3) {
      NodesDistinct(m, nodes, nodes[c].parent, b);
      assert nodes[c] == Node(2, b, i3);
    }
  }

  lemma SlotHas1(m: Mem, nodes: seq<Node>, b: nat, i4: nat, i3: nat, i2: nat)
    requires Tree(m, nodes) && At2(nodes, b, i4, i3) && i4 < 510 && i3 < ENTRIES && i2 < ENTRIES
    ensures Present(m.blocks[b][i2]) <==> Has1(nodes, i4, i3, i2)
  {
    SlotUsed(m, nodes, b, i2);
    if Present(m.blocks[b][i2]) {
      var c: nat :| 0 < c < |nodes| && nodes[c] == Node(1, b, i2);
      assert At1(nodes, c, i4, i3, i2);
    }
    if c: nat :| At1(nodes, c, i4, i3, i2) {
      var d := nodes[c].parent;
      NodesDistinct(m, nodes, nodes[d].parent, nodes[b].parent);
      NodesDistinct(m, nodes, d, b);
      assert nodes[c] == Node(1, b, i2);
    }
  }

  // ---- What appending a node adds ----

  ghost predicate ParentsInside(nodes: seq<Node>) {
    forall c | 0 <= c < |nodes| :: nodes[c].parent < |nodes|
  }

  lemma TreeParents(m: Mem, nodes: seq<Node>)
    requires Tree(m, nodes)
    ensures ParentsInside(nodes)
  {
    forall c | 0 <= c < |nodes|
      ensures nodes[c].parent < |nodes|
    {
      if c > 0 {
        assert Hangs(m, nodes, c);
      }
    }
  }

  lemma Append3(nodes: seq<Node>, n: Node, i4: nat)
    requires ParentsInside(nodes) && n.parent < |nodes|
    ensures Has3(nodes + [n], i4) <==> Has3(nodes, i4) || n == Node(3, 0, i4)
  {
    var all := nodes + [n];
    if c: nat :| At3(nodes, c, i4) {
      assert At3(all, c, i4);
    }
    if n == Node(3, 0, i4) {
      assert At3(all, |nodes|, i4);
    }
    if c: nat :| At3(all, c, i4) {
      assert c < |nodes| ==> At3(nodes, c, i4);
    }
  }

  lemma Append2(nodes: seq<Node>, n: Node, i4: nat, i3: nat)
    requires ParentsInside(nodes) && n.parent < |nodes|
    ensures Has2(nodes + [n], i4, i3) <==>
              Has2(nodes, i4, i3) || (n.level == 2 && n.index == i3 && At3(nodes, n.parent, i4))
  {
    var all := nodes + [n];
    if c: nat :| At2(nodes, c, i4, i3) {
      assert At2(all, c, i4, i3);
    }
    if n.level == 2 && n.index == i3 && At3(nodes, n.parent, i4) {
      assert At2(all, |nodes|, i4, i3);
    }
    if c: nat :| At2(all, c, i4, i3) {
      assert c < |nodes| ==> At2(nodes, c, i4, i3);
    }
  }

  lemma Append1(nodes: seq<Node>, n: Node, i4: nat, i3: nat, i2: nat)
    requires ParentsInside(nodes) && n.parent < |nodes|
    ensures Has1(nodes + [n], i4, i3, i2) <==>
              Has1(nodes, i4, i3, i2) || (n.level == 1 && n.index == i2 && At2(nodes, n.parent, i4, i3))
  {
    var all := nodes + [n];
    if c: nat :| At1(nodes, c, i4, i3, i2) {
      assert At2(nodes, nodes[c].parent, i4, i3);
      assert At1(all, c, i4, i3, i2);
    }
    if n.level == 1 && n.index == i2 && At2(nodes, n.parent, i4, i3) {
      assert At1(all, |nodes|, i4, i3, i2);
    }
    if c: nat :| At1(all, c, i4, i3, i2) {
      assert c < |nodes| ==> At1(nodes, c, i4, i3, i2);
    }
  }
}
