/**
 4-level paging as the processor walks it (section 4.5 of the Intel SDM, Volume 3A), and the kernel's
 recursive addresses. Physical memory is seen as 4 KiB blocks of 512 entries from a base address.
 */
module PageWalk {
  import opened Machine
  import Division

  const ENTRIES: int := 512
  const GIB: int := 0x4000_0000
  const P4_SPAN: int := 0x80_0000_0000          // 512 GiB under one level-4 entry
  const ADDR_LIMIT: int := 0x10_0000_0000_0000  // 2^52

  type Block = s: seq<u64> | |s| == ENTRIES witness seq(ENTRIES, _ => 0)

  datatype Mem = Mem(base: nat, blocks: seq<Block>)

  function ZeroBlock(): (z: Block)
    ensures forall i | 0 <= i < ENTRIES :: z[i] == 0
  {
    seq(ENTRIES, _ => 0)
  }

  // ---- Index and entry fields: shifts and masks as division and remainder ----

  function P4Index(v: u64): (i: nat)
    ensures i < ENTRIES
  {
    v / 0x80_0000_0000 % 512
  }

  function P3Index(v: u64): (i: nat)
    ensures i < ENTRIES
  {
    v / 0x4000_0000 % 512
  }

  function P2Index(v: u64): (i: nat)
    ensures i < ENTRIES
  {
    v / 0x20_0000 % 512
  }

  function P1Index(v: u64): (i: nat)
    ensures i < ENTRIES
  {
    v / 0x1000 % 512
  }


  predicate Present(e: u64) { e % 2 == 1 }

  /** Bit 7: the entry maps a large page instead of naming a table. */
  predicate Big(e: u64) { e / 128 % 2 == 1 }

  /** Bits 51..12 of an entry. */
  function Frame(e: u64): nat { e % ADDR_LIMIT / 4096 * 4096 }

  function Frame2M(e: u64): nat { e % ADDR_LIMIT / 0x20_0000 * 0x20_0000 }

  function Frame1G(e: u64): nat { e % ADDR_LIMIT / 0x4000_0000 * 0x4000_0000 }

  /** The entry at index `i` of the table at physical address `a`; nothing is present outside the modelled memory. */
  function Entry(m: Mem, a: nat, i: nat): u64
    requires i < ENTRIES
  {
    if m.base <= a && (a - m.base) % 4096 == 0 && (a - m.base) / 4096 < |m.blocks|
    then m.blocks[(a - m.base) / 4096][i]
    else 0
  }

  // ---- The walk ----

  datatype Leaf =
    | Fault
    | Leaf1G(e4: u64, e3: u64)
    | Leaf2M(e4: u64, e3: u64, e2: u64)
    | Leaf4K(e4: u64, e3: u64, e2: u64, e1: u64)

  function Path(m: Mem, cr3: nat, i4: nat, i3: nat, i2: nat, i1: nat): Leaf
    requires i4 < ENTRIES && i3 < ENTRIES && i2 < ENTRIES && i1 < ENTRIES
  {
    var e4 := Entry(m, cr3, i4);
    if !Present(e4) || Big(e4) then Fault
    else
      var e3 := Entry(m, Frame(e4), i3);
      if !Present(e3) then Fault
      else if Big(e3) then Leaf1G(e4, e3)
      else
        var e2 := Entry(m, Frame(e3), i2);
        if !Present(e2) then Fault
        else if Big(e2) then Leaf2M(e4, e3, e2)
        else
          var e1 := Entry(m, Frame(e2), i1);
          if !Present(e1) then Fault else Leaf4K(e4, e3, e2, e1)
  }

  predicate Canonical(v: u64) {
    v < 0x8000_0000_0000 || v >= W - 0x8000_0000_0000
  }

  function PathOf(m: Mem, cr3: nat, v: u64): Leaf {
    Path(m, cr3, P4Index(v), P3Index(v), P2Index(v), P1Index(v))
  }

  /** The physical address that `v` translates to, if any. */
  function Walk(m: Mem, cr3: nat, v: u64): Option<int> {
    if !Canonical(v) then None
    else
      match PathOf(m, cr3, v)
      case Fault => None
      case Leaf1G(_, e3) => Some(Frame1G(e3) + v % 0x4000_0000)
      case Leaf2M(_, _, e2) => Some(Frame2M(e2) + v % 0x20_0000)
      case Leaf4K(_, _, _, e1) => Some(Frame(e1) + v % 4096)
  }

  // ---- Recursive addresses ----

  /** (x & -8) | -(2^k) for k = 39, 30, 21, 12 of the source, on 64-bit words. */
  function GetP1(v: u64): u64 { W - 0x80_0000_0000 + RoundDown(v / 0x200, 8) % 0x80_0000_0000 }
  function GetP2(v: u64): u64 { W - 0x4000_0000 + RoundDown(v / 0x4_0000, 8) % 0x4000_0000 }
  function GetP3(v: u64): u64 { W - 0x20_0000 + RoundDown(v / 0x800_0000, 8) % 0x20_0000 }
  function GetP4(v: u64): u64 { W - 0x1000 + RoundDown(v / 0x10_0000_0000, 8) % 0x1000 }

  /** Or-ing in the high bits is adding them to the low bits, which is how GetP1 .. GetP4 read the source. */
  lemma OrHighBits(y: bv64)
    ensures (y | (0 - 0x80_0000_0000)) == (0 - 0x80_0000_0000) + (y & 0x7f_ffff_ffff)
    ensures (y | (0 - 0x4000_0000)) == (0 - 0x4000_0000) + (y & 0x3fff_ffff)
    ensures (y | (0 - 0x20_0000)) == (0 - 0x20_0000) + (y & 0x1f_ffff)
    ensures (y | (0 - 0x1000)) == (0 - 0x1000) + (y & 0xfff)
  {
  }

  /** A page-aligned address or-ed with flag bits is their sum. */
  lemma OrFlags(a: bv64, f: bv64)
    requires a & 0xfff == 0 && f & !0xfff == 0
    ensures a | f == a + f
  {
  }

  function Compose(h: nat, i4: nat, i3: nat, i2: nat, i1: nat, o: nat): nat {
    h * 0x1_0000_0000_0000 + i4 * 0x80_0000_0000 + i3 * 0x4000_0000 + i2 * 0x20_0000 + i1 * 0x1000 + o
  }

  lemma ComposeIndices(v: u64, h: nat, i4: nat, i3: nat, i2: nat, i1: nat, o: nat)
    requires i4 < 512 && i3 < 512 && i2 < 512 && i1 < 512 && o < 4096 && v == Compose(h, i4, i3, i2, i1, o)
    ensures P4Index(v) == i4 && P3Index(v) == i3 && P2Index(v) == i2 && P1Index(v) == i1 && v % 4096 == o
  {
    var a := h * 512 + i4;
    var b := a * 512 + i3;
    var c := b * 512 + i2;
    var d := c * 512 + i1;
    assert v == d * 0x1000 + o;
    Shifts(v);
    assert v / 0x1000 == d && v / 0x20_0000 == c && v / 0x4000_0000 == b && v / 0x80_0000_0000 == a;
  }

  lemma Shifts(v: nat)
    ensures v / 0x20_0000 == v / 0x1000 / 512
    ensures v / 0x4000_0000 == v / 0x20_0000 / 512
    ensures v / 0x80_0000_0000 == v / 0x4000_0000 / 512
  {
  }

  lemma Decompose(v: u64) returns (h: nat)
    ensures h < 0x10000
    ensures v == Compose(h, P4Index(v), P3Index(v), P2Index(v), P1Index(v), v % 4096)
  {
    h := v / 0x1_0000_0000_0000;
    var a, b, c, d := v / 0x1000, v / 0x20_0000, v / 0x4000_0000, v / 0x80_0000_0000;
    assert v == a * 0x1000 + v % 4096;
    assert a == b * 512 + P1Index(v);
    assert b == c * 512 + P2Index(v);
    assert c == d * 512 + P3Index(v);
    assert d == h * 512 + P4Index(v);
  }

  /** The recursive addresses name the self entry once, twice, three and four times, then the indices of `v`. */
  lemma RecursiveIndices(v: u64)
    ensures
      var p := GetP1(v);
      P4Index(p) == 511 && P3Index(p) == P4Index(v) && P2Index(p) == P3Index(v) && P1Index(p) == P2Index(v)
      && p % 4096 == P1Index(v) * 8 && Canonical(p)
    ensures
      var p := GetP2(v);
      P4Index(p) == 511 && P3Index(p) == 511 && P2Index(p) == P4Index(v) && P1Index(p) == P3Index(v)
      && p % 4096 == P2Index(v) * 8 && Canonical(p)
    ensures
      var p := GetP3(v);
      P4Index(p) == 511 && P3Index(p) == 511 && P2Index(p) == 511 && P1Index(p) == P4Index(v)
      && p % 4096 == P3Index(v) * 8 && Canonical(p)
    ensures
      var p := GetP4(v);
      P4Index(p) == 511 && P3Index(p) == 511 && P2Index(p) == 511 && P1Index(p) == 511
      && p % 4096 == P4Index(v) * 8 && Canonical(p)
  {
    hide P4Index, P3Index, P2Index, P1Index;
    var i4, i3, i2, i1 := P4Index(v), P3Index(v), P2Index(v), P1Index(v);
    var h := Decompose(v);
    IndexBounds(v);
    RecursiveSums(v, h, i4, i3, i2, i1);
    ComposeIndices(GetP1(v), 0xffff, 511, i4, i3, i2, i1 * 8);
    ComposeIndices(GetP2(v), 0xffff, 511, 511, i4, i3, i2 * 8);
    ComposeIndices(GetP3(v), 0xffff, 511, 511, 511, i4, i3 * 8);
    ComposeIndices(GetP4(v), 0xffff, 511, 511, 511, 511, i4 * 8);
  }

  lemma IndexBounds(v: u64)
    ensures P4Index(v) < 512 && P3Index(v) < 512 && P2Index(v) < 512 && P1Index(v) < 512
  {
  }

  lemma RecursiveSums(v: u64, h: nat, i4: nat, i3: nat, i2: nat, i1: nat)
    requires i4 < 512 && i3 < 512 && i2 < 512 && i1 < 512 && h < 0x10000
    requires v == Compose(h, i4, i3, i2, i1, v % 4096)
    ensures GetP1(v) == Compose(0xffff, 511, i4, i3, i2, i1 * 8)
    ensures GetP2(v) == Compose(0xffff, 511, 511, i4, i3, i2 * 8)
    ensures GetP3(v) == Compose(0xffff, 511, 511, 511, i4, i3 * 8)
    ensures GetP4(v) == Compose(0xffff, 511, 511, 511, 511, i4 * 8)
  {
    hide RoundDown, GetP1, GetP2, GetP3, GetP4;
    var x12, x21, x30 := i4, i4 * 512 + i3, (i4 * 512 + i3) * 512 + i2;
    var x39 := x30 * 512 + i1;
    SumP1(v, h, x39);
    SumP2(v, h, x30);
    SumP3(v, h, x21);
    SumP4(v, h, x12);
  }

  lemma SumP1(v: u64, h: nat, x: nat)
    requires x < 0x10_0000_0000
    requires (h * 0x10_0000_0000 + x) * 0x1000 <= v < (h * 0x10_0000_0000 + x) * 0x1000 + 0x1000
    ensures GetP1(v) == W - 0x80_0000_0000 + x * 8
  {
    hide RoundDown;
    RoundDownShift(v, h * 0x10_0000_0000 + x);
    LowPart39(h, x);
  }

  lemma SumP2(v: u64, h: nat, x: nat)
    requires x < 0x800_0000
    requires (h * 0x800_0000 + x) * 0x20_0000 <= v < (h * 0x800_0000 + x) * 0x20_0000 + 0x20_0000
    ensures GetP2(v) == W - 0x4000_0000 + x * 8
  {
    hide RoundDown;
    RoundDownShift2(v, h * 0x800_0000 + x);
    LowPart30(h, x);
  }

  lemma SumP3(v: u64, h: nat, x: nat)
    requires x < 0x4_0000
    requires (h * 0x4_0000 + x) * 0x4000_0000 <= v < (h * 0x4_0000 + x) * 0x4000_0000 + 0x4000_0000
    ensures GetP3(v) == W - 0x20_0000 + x * 8
  {
    hide RoundDown;
    RoundDownShift3(v, h * 0x4_0000 + x);
    LowPart21(h, x);
  }

  lemma SumP4(v: u64, h: nat, x: nat)
    requires x < 0x200
    requires (h * 0x200 + x) * 0x80_0000_0000 <= v < (h * 0x200 + x) * 0x80_0000_0000 + 0x80_0000_0000
    ensures GetP4(v) == W - 0x1000 + x * 8
  {
    hide RoundDown;
    RoundDownShift4(v, h * 0x200 + x);
    LowPart12(h, x);
  }

  lemma LowPart39(h: nat, x: nat)
    requires x < 0x10_0000_0000
    ensures (h * 0x10_0000_0000 + x) * 8 % 0x80_0000_0000 == x * 8
  {
    Division.ModUnique(h, 0x80_0000_0000, x * 8);
  }

  lemma LowPart30(h: nat, x: nat)
    requires x < 0x800_0000
    ensures (h * 0x800_0000 + x) * 8 % 0x4000_0000 == x * 8
  {
    Division.ModUnique(h, 0x4000_0000, x * 8);
  }

  lemma LowPart21(h: nat, x: nat)
    requires x < 0x4_0000
    ensures (h * 0x4_0000 + x) * 8 % 0x20_0000 == x * 8
  {
    Division.ModUnique(h, 0x20_0000, x * 8);
  }

  lemma LowPart12(h: nat, x: nat)
    requires x < 0x200
    ensures (h * 0x200 + x) * 8 % 0x1000 == x * 8
  {
    Division.ModUnique(h, 0x1000, x * 8);
  }

  lemma RoundDownShift(v: u64, d: nat)
    requires d * 0x1000 <= v < d * 0x1000 + 0x1000
    ensures RoundDown(v / 0x200, 8) == d * 8
  {
  }

  lemma RoundDownShift2(v: u64, c: nat)
    requires c * 0x20_0000 <= v < c * 0x20_0000 + 0x20_0000
    ensures RoundDown(v / 0x4_0000, 8) == c * 8
  {
  }

  lemma RoundDownShift3(v: u64, b: nat)
    requires b * 0x4000_0000 <= v < b * 0x4000_0000 + 0x4000_0000
    ensures RoundDown(v / 0x800_0000, 8) == b * 8
  {
  }

  lemma RoundDownShift4(v: u64, a: nat)
    requires a * 0x80_0000_0000 <= v < a * 0x80_0000_0000 + 0x80_0000_0000
    ensures RoundDown(v / 0x10_0000_0000, 8) == a * 8
  {
  }

  /** `cr3` has its own address, as a table pointer, in its last slot. */
  predicate SelfMapped(m: Mem, cr3: nat) {
    var e := Entry(m, cr3, 511);
    Present(e) && !Big(e) && Frame(e) == cr3
  }

  /**
   Recursive window: for every `v` translated through a 4 KiB leaf, the four recursive addresses translate to the
   physical addresses of the very entries that the walk of `v` reads, level 1 to level 4.
   */
  lemma RecursiveWindow(m: Mem, cr3: nat, v: u64)
    requires SelfMapped(m, cr3) && PathOf(m, cr3, v).Leaf4K?
    ensures
      var p := PathOf(m, cr3, v);
      && Walk(m, cr3, GetP1(v)) == Some(Frame(p.e2) + 8 * P1Index(v))
      && Walk(m, cr3, GetP2(v)) == Some(Frame(p.e3) + 8 * P2Index(v))
      && Walk(m, cr3, GetP3(v)) == Some(Frame(p.e4) + 8 * P3Index(v))
      && Walk(m, cr3, GetP4(v)) == Some(cr3 + 8 * P4Index(v))
      && p.e1 == Entry(m, Frame(p.e2), P1Index(v)) && p.e2 == Entry(m, Frame(p.e3), P2Index(v))
      && p.e3 == Entry(m, Frame(p.e4), P3Index(v)) && p.e4 == Entry(m, cr3, P4Index(v))
  {
    hide GetP1, GetP2, GetP3, GetP4, Canonical, P4Index, P3Index, P2Index, P1Index, Frame, Present, Big, Entry;
    RecursiveIndices(v);
    IndexBounds(v);
  }
}
