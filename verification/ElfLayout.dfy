/** Where a program and its buffers go: the loader's checks in wrapping arithmetic against the same checks over the
    integers. */
module ElfLayout {
  import opened Machine
  import opened VirtualMemory
  import opened ElfFile

  const LOAD_START: int := 0x40_0000
  const USER_LIMIT: int := 0x8000_0000_0000   // 2^47, the lower half of the address space

  datatype Config = Config(memoryLimit: u64, stdinSize: u64, stdoutSize: u64, stderrSize: u64, ibSize: u64, obSize: u64)

  /** Start addresses in address order. stdin starts at `stop`, where the program area ends; `special` ends the last. */
  datatype Layout = Layout(hi: nat, stop: nat, stdout: nat, stderr: nat, ib: nat, ob: nat, image: nat, random: nat,
      special: nat)

  function Paged(x: nat): nat {
    RoundUp(x, PAGE_SIZE)
  }

  /** The layout over unbounded integers. */
  function LayoutFrom(hi: nat, c: Config): Layout {
    var stop := LOAD_START + Paged(c.memoryLimit);
    var stdout := stop + Paged(c.stdinSize);
    var stderr := stdout + Paged(c.stdoutSize);
    var ib := stderr + Paged(c.stderrSize);
    var ob := ib + Paged(c.ibSize);
    var image := ob + Paged(c.obSize);
    Layout(hi, stop, stdout, stderr, ib, ob, image, image + PAGE_SIZE, image + 2 * PAGE_SIZE)
  }

  predicate PhdrsInside(f: seq<byte>)
    requires |f| >= EHDR_SIZE
  {
    forall i | 0 <= i < EhdrOf(f).phnum :: Inside(f, i)
  }

  predicate SegsOk(f: seq<byte>)
    requires |f| >= EHDR_SIZE && PhdrsInside(f)
  {
    forall i | 0 <= i < EhdrOf(f).phnum && IsLoad(f, i) :: SegOk(Seg(f, i), |f|)
  }

  predicate SegsOk64(f: seq<byte>)
    requires |f| >= EHDR_SIZE && PhdrsInside(f)
  {
    forall i | 0 <= i < EhdrOf(f).phnum && IsLoad(f, i) :: SegOk64(Seg(f, i), |f|)
  }

  ghost function Low(f: seq<byte>): nat
    requires |f| >= EHDR_SIZE && PhdrsInside(f)
  {
    RoundDown(MinVaddr(f, EhdrOf(f).phnum), PAGE_SIZE)
  }

  ghost function High(f: seq<byte>): nat
    requires |f| >= EHDR_SIZE && PhdrsInside(f)
  {
    Paged(MaxEnd(f, EhdrOf(f).phnum))
  }

  /** The conditions of the loader, every one of them over unbounded integers. */
  ghost predicate Accepts(f: seq<byte>, c: Config, kernelBreak: nat, vaddrBreak: nat) {
    && HeaderOk(f) && PhdrsInside(f) && SegsOk(f)
    && kernelBreak <= Low(f) == LOAD_START < High(f) <= vaddrBreak
    && High(f) - LOAD_START + PAGE_SIZE <= Paged(c.memoryLimit)
    && LayoutFrom(High(f), c).special <= vaddrBreak
  }

  // ---- The loader's own computation ----

  /** The first pass over the program headers. */
  method ScanSegments(f: seq<byte>) returns (ok: bool, minVaddr: u64, maxVaddr: u64)
    requires HeaderOk(f) && |f| < 0x1_0000_0000
    ensures ok <==> PhdrsInside(f) && SegsOk64(f)
    ensures ok ==> minVaddr == MinVaddr(f, EhdrOf(f).phnum) && maxVaddr == MaxEnd(f, EhdrOf(f).phnum)
  {
    hide IdentOk, EhdrOf, PhdrAt, SegOk64, Wrap, PhdrOff, Inside;
    var h := EhdrOf(f);
    minVaddr, maxVaddr := W - 1, 0;
    for i := 0 to h.phnum
      invariant forall k | 0 <= k < i :: Inside(f, k)
      invariant forall k | 0 <= k < i && IsLoad(f, k) :: SegOk64(Seg(f, k), |f|)
      invariant minVaddr == MinVaddr(f, i) && maxVaddr == MaxEnd(f, i)
    {
      HeaderOffset(f, i);
      var off := Wrap(h.phoff + Wrap(i * h.phentsize));
      if Wrap(off + PHDR_SIZE) > |f| {
        return false, minVaddr, maxVaddr;
      }
      var p := PhdrAt(f, off);
      assert p == Seg(f, i);
      if p.ptype != PT_LOAD {
        continue;
      }
      var segOk := CheckSegment(p, |f|);
      if !segOk {
        return false, minVaddr, maxVaddr;
      }
      minVaddr := Min(minVaddr, p.vaddr);
      maxVaddr := Max(maxVaddr, Wrap(p.vaddr + p.memsz));
    }
    return true, minVaddr, maxVaddr;
  }

  /** The checks on one loadable segment. */
  method CheckSegment(p: Phdr, len: nat) returns (ok: bool)
    requires len < 0x1_0000_0000
    ensures ok <==> SegOk64(p, len)
    ensures ok ==> Wrap(p.vaddr + p.memsz) == p.vaddr + p.memsz
  {
    if p.filesz != 0 {
      if p.offset > len || Wrap(p.offset + p.filesz) > len {
        return false;
      }
    }
    if p.align != PAGE_SIZE && p.align != HUGE_PAGE_SIZE {
      return false;
    }
    if p.memsz < p.filesz {
      return false;
    }
    if Wrap(p.vaddr + p.memsz) < p.vaddr {
      return false;
    }
    return true;
  }

  /** The wrapping offset of a header is its offset, and the wrapping test says whether it lies inside the file. */
  lemma HeaderOffset(f: seq<byte>, i: nat)
    requires HeaderOk(f) && |f| < 0x1_0000_0000 && i < EhdrOf(f).phnum
    ensures Wrap(EhdrOf(f).phoff + Wrap(i * EhdrOf(f).phentsize)) == PhdrOff(f, i)
    ensures Wrap(PhdrOff(f, i) + PHDR_SIZE) <= |f| <==> Inside(f, i)
    ensures Inside(f, i) ==> PhdrOff(f, i) + PHDR_SIZE <= |f|
  {
    hide EhdrOf, IdentOk;
    PhdrOffsetSmall(EhdrOf(f), i);
  }

  lemma PhdrOffsetSmall(h: Ehdr, i: nat)
    requires h.phoff < 0x1_0000_0000 && h.phentsize < 0x1_0000 && i < 0x1_0000
    ensures 0 <= i * h.phentsize < 0x1_0000_0000
    ensures Wrap(h.phoff + Wrap(i * h.phentsize)) == h.phoff + i * h.phentsize
  {
    MulBound(i, h.phentsize);
  }

  lemma {:induction false} MulBound(x: nat, y: nat)
    requires y < 0x1_0000
    ensures 0 <= x * y <= x * 0xffff
  {
    if x == 0 {
    } else {
      MulBound(x - 1, y);
      assert x * y == (x - 1) * y + y;
    }
  }

  /** One buffer region: both overflow checks together say that the end is below 2^64. */
  method Carve(start: u64, size: u64) returns (ok: bool, stop: u64)
    ensures ok <==> start + Paged(size) < W
    ensures ok ==> stop == start + Paged(size)
  {
    hide RoundUp64, Paged, Wrap;
    RoundUpPage(size);
    var alloc := RoundUp64(size, PAGE_SIZE);
    if alloc < size {
      return false, 0;
    }
    stop := Wrap(start + alloc);
    WrapShows(start, alloc);
    return stop >= start, stop;
  }

  /** A wrapped sum is smaller than its terms. */
  lemma WrapShows(x: u64, y: u64)
    ensures x + y < W ==> Wrap(x + y) == x + y
    ensures x + y >= W ==> Wrap(x + y) < x
  {
  }

  /** The checks and the layout of load_elf64, in wrapping 64-bit arithmetic. */
  method PlanLayout(f: seq<byte>, c: Config, kernelBreak: u64, vaddrBreak: u64) returns (r: Option<Layout>)
    requires |f| < 0x1_0000_0000 && vaddrBreak <= USER_LIMIT
    ensures r.Some? <==> Accepts(f, c, kernelBreak, vaddrBreak)
    ensures r.Some? ==> r.value == LayoutFrom(High(f), c)
  {
    hide IdentOk, RoundUp, RoundDown, SegOk64, SegOk, MinVaddr, MaxEnd, EhdrOf, IsLoad;
    if !HeaderOk(f) {
      return None;
    }
    var ok, minVaddr, maxVaddr := ScanSegments(f);
    if !ok {
      ScanRejects(f, c, kernelBreak, vaddrBreak);
      return None;
    }
    RescuedByMaxVaddr(f);
    minVaddr := RoundDown64(minVaddr, PAGE_SIZE);
    var wrapped := RoundUp64(maxVaddr, PAGE_SIZE);
    RoundUpPage(maxVaddr);
    RoundUpPage(c.memoryLimit);
    maxVaddr := wrapped;
    if minVaddr < kernelBreak {
      return None;
    }
    if maxVaddr <= minVaddr || maxVaddr > vaddrBreak {
      return None;
    }
    var memoryLimit := RoundUp64(c.memoryLimit, PAGE_SIZE);
    var needed := maxVaddr - minVaddr;
    if memoryLimit < needed || memoryLimit < Wrap(needed + PAGE_SIZE) {
      return None;
    }
    if minVaddr != LOAD_START {
      return None;
    }
    var stop := Wrap(LOAD_START + memoryLimit);
    if stop < LOAD_START || stop > vaddrBreak {
      return None;
    }
    r := PlanRegions(maxVaddr, stop, c, vaddrBreak);
  }

  /** The special region above the program area. */
  method PlanRegions(hi: u64, stop: u64, c: Config, vaddrBreak: u64) returns (r: Option<Layout>)
    requires stop == LOAD_START + Paged(c.memoryLimit) && vaddrBreak <= USER_LIMIT
    ensures r.Some? <==> LayoutFrom(hi, c).special <= vaddrBreak
    ensures r.Some? ==> r.value == LayoutFrom(hi, c)
  {
    hide RoundUp, Paged;
    var ok, stdout := Carve(stop, c.stdinSize);
    if !ok { return None; }
    var stderr, ib, ob, image;
    ok, stderr := Carve(stdout, c.stdoutSize);
    if !ok { return None; }
    ok, ib := Carve(stderr, c.stderrSize);
    if !ok { return None; }
    ok, ob := Carve(ib, c.ibSize);
    if !ok { return None; }
    ok, image := Carve(ob, c.obSize);
    if !ok { return None; }
    var random := Wrap(image + PAGE_SIZE);
    if random < image { return None; }
    var special := Wrap(random + PAGE_SIZE);
    if special < random { return None; }
    if special < stop || special > vaddrBreak { return None; }
    return Some(Layout(hi, stop, stdout, stderr, ib, ob, image, random, special));
  }

  function RoundDown64(x: u64, r: u64): (y: u64)
    requires r > 0
    ensures y == RoundDown(x, r)
  {
    x - x % r
  }

  lemma RoundUpPage(x: u64)
    ensures RoundUp64(x, PAGE_SIZE) == if Paged(x) < W then Paged(x) else 0
    ensures x <= Paged(x) <= W && Paged(x) < x + PAGE_SIZE
  {
  }

  /** A wrap in p_offset + p_filesz that the first pass lets through always shows as a too high segment end. */
  lemma RescuedByMaxVaddr(f: seq<byte>)
    requires HeaderOk(f) && PhdrsInside(f) && SegsOk64(f) && |f| < 0x1_0000_0000
    ensures High(f) <= USER_LIMIT ==> SegsOk(f)
    ensures MaxEnd(f, EhdrOf(f).phnum) < W
  {
    var n := EhdrOf(f).phnum;
    hide RoundUp, SegOk64, SegOk, MinVaddr, MaxEnd, EhdrOf, IsLoad, IdentOk;
    MaxEndBounded(f, n);
    if High(f) <= USER_LIMIT {
      forall i | 0 <= i < EhdrOf(f).phnum && IsLoad(f, i)
        ensures SegOk(Seg(f, i), |f|)
      {
        SegmentWithin(f, n, i);
        SegChecksDiffer(Seg(f, i), |f|);
        RoundUpPage(MaxEnd(f, n));
      }
    }
  }

  lemma {:induction false} MaxEndBounded(f: seq<byte>, n: nat)
    requires |f| >= EHDR_SIZE && |f| < 0x1_0000_0000 && forall i | 0 <= i < n :: Inside(f, i)
    requires forall i | 0 <= i < n && IsLoad(f, i) :: SegOk64(Seg(f, i), |f|)
    ensures MaxEnd(f, n) < W
  {
    if n == 0 {
    } else {
      MaxEndBounded(f, n - 1);
      if IsLoad(f, n - 1) {
        SegChecksDiffer(Seg(f, n - 1), |f|);
      }
    }
  }

  lemma ScanRejects(f: seq<byte>, c: Config, kernelBreak: nat, vaddrBreak: nat)
    requires HeaderOk(f) && !(PhdrsInside(f) && SegsOk64(f)) && |f| < 0x1_0000_0000
    ensures !Accepts(f, c, kernelBreak, vaddrBreak)
  {
    hide RoundUp, RoundDown, MinVaddr, MaxEnd, SegOk64, SegOk, EhdrOf, IsLoad, IdentOk;
    if PhdrsInside(f) && SegsOk(f) {
      forall i | 0 <= i < EhdrOf(f).phnum && IsLoad(f, i)
        ensures SegOk64(Seg(f, i), |f|)
      {
        SegChecksDiffer(Seg(f, i), |f|);
      }
    }
  }

  // ---- Accepted regions ----

  /** Every region is as large as asked for, in address order, and the program area leaves a page for the stack. */
  predicate Ordered(c: Config, l: Layout) {
    && LOAD_START <= l.hi && l.hi + PAGE_SIZE <= l.stop
    && l.stop + c.stdinSize <= l.stdout && l.stdout + c.stdoutSize <= l.stderr && l.stderr + c.stderrSize <= l.ib
    && l.ib + c.ibSize <= l.ob && l.ob + c.obSize <= l.image && l.image + PAGE_SIZE == l.random
    && l.random + PAGE_SIZE == l.special
    && l.stop % PAGE_SIZE == 0
  }

  /** No region is followed by more than the rest of its last page, so alignment leaves one place for each. */
  predicate Tight(c: Config, l: Layout) {
    && l.stop < LOAD_START + c.memoryLimit + PAGE_SIZE && l.stdout < l.stop + c.stdinSize + PAGE_SIZE
    && l.stderr < l.stdout + c.stdoutSize + PAGE_SIZE && l.ib < l.stderr + c.stderrSize + PAGE_SIZE
    && l.ob < l.ib + c.ibSize + PAGE_SIZE && l.image < l.ob + c.obSize + PAGE_SIZE
  }

  predicate PageAligned(l: Layout) {
    && l.hi % PAGE_SIZE == 0 && l.stop % PAGE_SIZE == 0 && l.stdout % PAGE_SIZE == 0 && l.stderr % PAGE_SIZE == 0
    && l.ib % PAGE_SIZE == 0 && l.ob % PAGE_SIZE == 0 && l.image % PAGE_SIZE == 0 && l.random % PAGE_SIZE == 0
    && l.special % PAGE_SIZE == 0
  }

  /** Accepted regions: page-aligned, in order, each as large as asked for, all inside [0x400000, vaddrBreak). */
  lemma AcceptedRegions(f: seq<byte>, c: Config, kernelBreak: nat, vaddrBreak: nat)
    requires Accepts(f, c, kernelBreak, vaddrBreak)
    ensures
      var l := LayoutFrom(High(f), c);
      && Ordered(c, l) && PageAligned(l) && LOAD_START < l.hi == High(f) && l.special <= vaddrBreak
      && LOAD_START + c.memoryLimit <= l.stop && Tight(c, l)
  {
    hide Ordered, Tight, PageAligned, LayoutFrom, Paged, MinVaddr, MaxEnd, SegOk, IdentOk, EhdrOf;
    assert LOAD_START < High(f) && High(f) + PAGE_SIZE <= LOAD_START + Paged(c.memoryLimit);
    assert High(f) % PAGE_SIZE == 0 by { PagedFacts(MaxEnd(f, EhdrOf(f).phnum)); }
    LayoutOrdered(High(f), c);
    LayoutAligned(High(f), c);
    LayoutTight(High(f), c);
  }

  lemma LayoutTight(hi: nat, c: Config)
    ensures Tight(c, LayoutFrom(hi, c))
  {
    hide Paged;
    PagedFacts(c.memoryLimit);
    PagedFacts(c.stdinSize);
    PagedFacts(c.stdoutSize);
    PagedFacts(c.stderrSize);
    PagedFacts(c.ibSize);
    PagedFacts(c.obSize);
  }

  lemma LayoutOrdered(hi: nat, c: Config)
    requires LOAD_START <= hi && hi + PAGE_SIZE <= LOAD_START + Paged(c.memoryLimit)
    ensures Ordered(c, LayoutFrom(hi, c)) && LayoutFrom(hi, c).hi == hi
    ensures LOAD_START + c.memoryLimit <= LayoutFrom(hi, c).stop
  {
    hide Paged;
    PagedFacts(c.memoryLimit);
    PagedFacts(c.stdinSize);
    PagedFacts(c.stdoutSize);
    PagedFacts(c.stderrSize);
    PagedFacts(c.ibSize);
    PagedFacts(c.obSize);
  }

  lemma LayoutAligned(hi: nat, c: Config)
    requires hi % PAGE_SIZE == 0
    ensures PageAligned(LayoutFrom(hi, c))
  {
    hide Paged;
    var l := LayoutFrom(hi, c);
    NextAligned(LOAD_START, c.memoryLimit);
    NextAligned(l.stop, c.stdinSize);
    NextAligned(l.stdout, c.stdoutSize);
    NextAligned(l.stderr, c.stderrSize);
    NextAligned(l.ib, c.ibSize);
    NextAligned(l.ob, c.obSize);
  }

  lemma NextAligned(start: nat, size: nat)
    requires start % PAGE_SIZE == 0
    ensures (start + Paged(size)) % PAGE_SIZE == 0
  {
    hide Paged;
    PagedFacts(size);
  }

  lemma PagedFacts(x: nat)
    ensures x <= Paged(x) < x + PAGE_SIZE && Paged(x) % PAGE_SIZE == 0
  {
  }
}
