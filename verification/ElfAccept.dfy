/** Which files are loaded, said segment by segment and over the integers, without the loader's minimum and maximum. */
module ElfAccept {
  import opened Machine
  import opened ElfFile
  import opened ElfLayout

  /** `x` bytes in whole pages. */
  function Pages(x: nat): nat {
    (x + 4095) / 4096 * 4096
  }

  /** A loadable segment: inside the file, aligned to a page size, and inside the program area below the stack page. */
  predicate SegmentFine(p: Phdr, len: nat, memoryLimit: nat, vaddrBreak: nat) {
    && (p.filesz != 0 ==> p.offset + p.filesz <= len)
    && (p.align == 4096 || p.align == 0x20_0000) && p.filesz <= p.memsz
    && 0x40_0000 <= p.vaddr && p.vaddr + p.memsz + 4096 <= 0x40_0000 + Pages(memoryLimit)
    && p.vaddr + p.memsz <= vaddrBreak - vaddrBreak % 4096
  }

  ghost predicate Loadable(f: seq<byte>, i: nat) {
    |f| >= EHDR_SIZE && i < EhdrOf(f).phnum && Inside(f, i) && Seg(f, i).ptype == 1
  }

  /** All there is to acceptance. */
  ghost predicate Acceptable(f: seq<byte>, c: Config, kernelBreak: nat, vaddrBreak: nat) {
    && HeaderOk(f) && (forall i | 0 <= i < EhdrOf(f).phnum :: Inside(f, i))
    && (forall i: nat | Loadable(f, i) :: SegmentFine(Seg(f, i), |f|, c.memoryLimit, vaddrBreak))
    && (exists i: nat :: Loadable(f, i) && Seg(f, i).vaddr < 0x40_1000)
    && (exists i: nat :: Loadable(f, i) && Seg(f, i).vaddr + Seg(f, i).memsz > 0x40_0000)
    && kernelBreak <= 0x40_0000
    && 0x40_0000 + Pages(c.memoryLimit) + Pages(c.stdinSize) + Pages(c.stdoutSize) + Pages(c.stderrSize)
       + Pages(c.ibSize) + Pages(c.obSize) + 2 * 4096 <= vaddrBreak
  }

  lemma {:induction false} MinIs(f: seq<byte>, n: nat, x: nat)
    requires |f| >= EHDR_SIZE && n <= EhdrOf(f).phnum && forall i | 0 <= i < n :: Inside(f, i)
    requires x < W - 1
    ensures MinVaddr(f, n) <= x <==> exists i: nat :: i < n && Loadable(f, i) && Seg(f, i).vaddr <= x
  {
    hide EhdrOf, Inside, Seg;
    if n == 0 {
    } else {
      MinIs(f, n - 1, x);
      var m := n - 1;
      assert IsLoad(f, m) <==> Loadable(f, m);
      if IsLoad(f, m) && Seg(f, m).vaddr <= x {
        assert Loadable(f, m);
      } else if i: nat :| i < n && Loadable(f, i) && Seg(f, i).vaddr <= x {
        assert i < m;
      }
    }
  }

  lemma {:induction false} MaxIs(f: seq<byte>, n: nat, x: nat)
    requires |f| >= EHDR_SIZE && n <= EhdrOf(f).phnum && forall i | 0 <= i < n :: Inside(f, i)
    ensures MaxEnd(f, n) > x <==> exists i: nat :: i < n && Loadable(f, i) && Seg(f, i).vaddr + Seg(f, i).memsz > x
  {
    hide EhdrOf, Inside, Seg;
    if n == 0 {
    } else {
      MaxIs(f, n - 1, x);
      var m := n - 1;
      assert IsLoad(f, m) <==> Loadable(f, m);
      if IsLoad(f, m) && Seg(f, m).vaddr + Seg(f, m).memsz > x {
        assert Loadable(f, m);
      } else if i: nat :| i < n && Loadable(f, i) && Seg(f, i).vaddr + Seg(f, i).memsz > x {
        assert i < m;
      }
    }
  }

  lemma PagesPaged(x: nat)
    ensures Pages(x) == Paged(x)
  {
  }

  lemma PagedBelow(x: nat, y: nat)
    ensures Paged(x) <= y <==> x <= y - y % 4096
  {
  }

  lemma DownTo(x: nat)
    ensures RoundDown(x, PAGE_SIZE) == 0x40_0000 <==> 0x3f_ffff < x <= 0x40_0fff
  {
  }

  /** The bounds of the loader are bounds on every segment. */
  lemma BoundsMean(f: seq<byte>, c: Config, vaddrBreak: nat)
    requires HeaderOk(f) && PhdrsInside(f)
    ensures Low(f) == LOAD_START <==>
              && (forall i: nat | Loadable(f, i) :: 0x40_0000 <= Seg(f, i).vaddr)
              && (exists i: nat :: Loadable(f, i) && Seg(f, i).vaddr < 0x40_1000)
    ensures High(f) > LOAD_START <==>
              exists i: nat :: Loadable(f, i) && Seg(f, i).vaddr + Seg(f, i).memsz > 0x40_0000
    ensures High(f) <= vaddrBreak <==>
              forall i: nat | Loadable(f, i) :: Seg(f, i).vaddr + Seg(f, i).memsz <= vaddrBreak - vaddrBreak % 4096
    ensures High(f) + PAGE_SIZE <= LOAD_START + Paged(c.memoryLimit) <==>
              forall i: nat | Loadable(f, i) ::
                Seg(f, i).vaddr + Seg(f, i).memsz + 4096 <= 0x40_0000 + Pages(c.memoryLimit)
  {
    hide IdentOk, EhdrOf, Inside, Seg, MinVaddr, MaxEnd, Paged, RoundDown, IsLoad, Pages;
    var n := EhdrOf(f).phnum;
    DownTo(MinVaddr(f, n));
    MinIs(f, n, 0x3f_ffff);
    MinIs(f, n, 0x40_0fff);
    MaxIs(f, n, 0x40_0000);
    var y := vaddrBreak - vaddrBreak % 4096;
    MaxIs(f, n, y);
    PagedBelow(MaxEnd(f, n), vaddrBreak);
    PagedBelow(MaxEnd(f, n), 0x40_0000);
    PagesPaged(c.memoryLimit);
    PagedFacts(c.memoryLimit);
    var z := LOAD_START + Paged(c.memoryLimit) - PAGE_SIZE;
    AlignedLimit(c.memoryLimit);
    MaxIs(f, n, z);
    PagedBelow(MaxEnd(f, n), z);
  }

  lemma AlignedLimit(x: nat)
    ensures (LOAD_START + Paged(x) - PAGE_SIZE) % 4096 == 0
  {
    hide Paged;
    PagedFacts(x);
  }

  lemma SegmentsMean(f: seq<byte>, c: Config, vaddrBreak: nat)
    requires HeaderOk(f) && PhdrsInside(f) && vaddrBreak <= USER_LIMIT
    requires Low(f) == LOAD_START && High(f) <= vaddrBreak && High(f) + PAGE_SIZE <= LOAD_START + Paged(c.memoryLimit)
    ensures SegsOk(f) <==> forall i: nat | Loadable(f, i) :: SegmentFine(Seg(f, i), |f|, c.memoryLimit, vaddrBreak)
  {
    BoundsMean(f, c, vaddrBreak);
    hide IdentOk, EhdrOf, Inside, Seg, MinVaddr, MaxEnd, Paged, RoundDown, Low, High, Pages;
    forall i: nat | Loadable(f, i)
      ensures SegOk(Seg(f, i), |f|) <==> SegmentFine(Seg(f, i), |f|, c.memoryLimit, vaddrBreak)
    {
    }
    assert forall i: nat | i < EhdrOf(f).phnum :: IsLoad(f, i) <==> Loadable(f, i);
  }

  /** The loader accepts exactly the acceptable files. */
  lemma AcceptsMeans(f: seq<byte>, c: Config, kernelBreak: nat, vaddrBreak: nat)
    requires vaddrBreak <= USER_LIMIT
    ensures Accepts(f, c, kernelBreak, vaddrBreak) <==> Acceptable(f, c, kernelBreak, vaddrBreak)
  {
    hide IdentOk, EhdrOf, Inside, Seg, Paged, Low, High, Pages, SegsOk, SegmentFine, Loadable;
    if HeaderOk(f) && PhdrsInside(f) {
      BoundsMean(f, c, vaddrBreak);
      AreaMeans(f, c);
      FineBounds(f, c, vaddrBreak);
      if Low(f) == LOAD_START && High(f) <= vaddrBreak && High(f) + PAGE_SIZE <= LOAD_START + Paged(c.memoryLimit) {
        SegmentsMean(f, c, vaddrBreak);
      }
    }
  }

  lemma FineBounds(f: seq<byte>, c: Config, vaddrBreak: nat)
    requires HeaderOk(f) && PhdrsInside(f)
    ensures
      && (forall i: nat | Loadable(f, i) :: SegmentFine(Seg(f, i), |f|, c.memoryLimit, vaddrBreak))
      && (exists i: nat :: Loadable(f, i) && Seg(f, i).vaddr < 0x40_1000) ==>
        Low(f) == LOAD_START && High(f) <= vaddrBreak && High(f) + PAGE_SIZE <= LOAD_START + Paged(c.memoryLimit)
  {
    hide IdentOk, EhdrOf, Inside, Seg, Paged, Low, High, Pages, Loadable;
    BoundsMean(f, c, vaddrBreak);
  }

  lemma AreaMeans(f: seq<byte>, c: Config)
    requires |f| >= EHDR_SIZE && PhdrsInside(f)
    ensures LayoutFrom(High(f), c).special ==
              0x40_0000 + Pages(c.memoryLimit) + Pages(c.stdinSize) + Pages(c.stdoutSize) + Pages(c.stderrSize)
              + Pages(c.ibSize) + Pages(c.obSize) + 2 * 4096
  {
    hide Paged, Pages, High, EhdrOf, Inside;
    PagesPaged(c.memoryLimit);
    PagesPaged(c.stdinSize);
    PagesPaged(c.stdoutSize);
    PagesPaged(c.stderrSize);
    PagesPaged(c.ibSize);
    PagesPaged(c.obSize);
  }
}
