/** Loading an accepted ELF64 file: segments, buffers and the startup block, written into one memory that also holds
    the sources. */
module ElfLoader {
  import opened Machine
  import opened Bytes
  import opened ElfFile
  import opened ElfLayout
  import opened Startup
  import opened Abi

  /** Addresses the loader copies from. */
  datatype Sources = Sources(elf: nat, elfLen: nat, stdin: nat, ib: nat, ob: nat, obClear: bool)

  datatype App = App(entry: u64, rsp: nat, info: nat, layout: Layout)

  function FileOf(m: seq<byte>, s: Sources): seq<byte>
    requires s.elf + s.elfLen <= |m|
  {
    m[s.elf..s.elf + s.elfLen]
  }

  /** The `n` bytes from `lo` on lie outside [0x400000, stop). */
  predicate Outside(lo: nat, n: nat, stop: nat) {
    lo + n <= LOAD_START || stop <= lo
  }

  /** The sources lie in the kernel below, or above `stop`, where the allocator puts the judge buffer. */
  predicate SourcesOutside(size: nat, s: Sources, c: Config, stop: nat) {
    && s.elfLen < 0x1_0000_0000 && stop <= USER_LIMIT
    && Outside(s.elf, s.elfLen, stop) && s.elf + s.elfLen <= size
    && Outside(s.stdin, c.stdinSize, stop) && s.stdin + c.stdinSize <= size
    && Outside(s.ib, c.ibSize, stop) && s.ib + c.ibSize <= size
    && Outside(s.ob, c.obSize, stop) && s.ob + c.obSize <= size
  }

  // ---- Segments ----

  /** The first `n` program headers can be copied into a memory of `size` bytes. */
  ghost predicate Fits(f: seq<byte>, size: nat, n: nat) {
    && |f| >= EHDR_SIZE && (forall i | 0 <= i < n :: Inside(f, i))
    && (forall i | 0 <= i < n && IsLoad(f, i) && Seg(f, i).filesz != 0 ::
          Seg(f, i).offset + Seg(f, i).filesz <= |f| && Seg(f, i).vaddr + Seg(f, i).filesz <= size)
  }

  function SegBytes(f: seq<byte>, p: Phdr): seq<byte>
    requires p.filesz != 0 ==> p.offset + p.filesz <= |f|
  {
    if p.filesz == 0 then [] else f[p.offset..p.offset + p.filesz]
  }

  /** `m` after the first `n` program headers were copied in order. */
  ghost function WithSegments(f: seq<byte>, m: seq<byte>, n: nat): (m': seq<byte>)
    requires Fits(f, |m|, n)
    ensures |m'| == |m|
  {
    if n == 0 then m
    else
      var before := WithSegments(f, m, n - 1);
      if IsLoad(f, n - 1) && Seg(f, n - 1).filesz != 0
      then Put(before, Seg(f, n - 1).vaddr, SegBytes(f, Seg(f, n - 1)))
      else before
  }

  ghost predicate Covers(f: seq<byte>, i: nat, a: nat)
    requires |f| >= EHDR_SIZE && Inside(f, i)
  {
    IsLoad(f, i) && Seg(f, i).vaddr <= a < Seg(f, i).vaddr + Seg(f, i).filesz
  }

  /** The last of the first `n` program headers whose file range covers address `a`, or -1. */
  ghost function LastCover(f: seq<byte>, n: nat, a: nat): (i: int)
    requires |f| >= EHDR_SIZE && forall i | 0 <= i < n :: Inside(f, i)
    ensures -1 <= i < n
    ensures i >= 0 ==> Covers(f, i, a)
    ensures forall k | i < k < n :: !Covers(f, k, a)
  {
    if n == 0 then -1 else if Covers(f, n - 1, a) then n - 1 else LastCover(f, n - 1, a)
  }

  /** Byte `a` comes from the last file range that covers it, or is what was there before. */
  lemma {:induction false} SegmentByte(f: seq<byte>, m: seq<byte>, n: nat, a: nat)
    requires Fits(f, |m|, n) && a < |m|
    ensures
      var i := LastCover(f, n, a);
      if i < 0 then WithSegments(f, m, n)[a] == m[a]
      else
        var at := Seg(f, i).offset + (a - Seg(f, i).vaddr);
        at < |f| && WithSegments(f, m, n)[a] == f[at]
  {
    hide Put, Seg, IsLoad, PhdrOff;
    if n == 0 {
    } else {
      SegmentByte(f, m, n - 1, a);
      var before, p := WithSegments(f, m, n - 1), Seg(f, n - 1);
      if IsLoad(f, n - 1) && p.filesz != 0 {
        PutByte(before, p.vaddr, SegBytes(f, p), a);
      }
    }
  }

  /** Nothing outside [low, high) is touched when all segments lie inside. */
  lemma {:induction false} SegmentsInside(f: seq<byte>, m: seq<byte>, n: nat, low: nat, high: nat, lo: nat, hi: nat)
    requires Fits(f, |m|, n) && lo <= hi <= |m| && (hi <= low || high <= lo)
    requires forall i | 0 <= i < n && IsLoad(f, i) && Seg(f, i).filesz != 0 ::
               low <= Seg(f, i).vaddr && Seg(f, i).vaddr + Seg(f, i).filesz <= high
    ensures WithSegments(f, m, n)[lo..hi] == m[lo..hi]
  {
    hide Put, Seg, IsLoad, PhdrOff;
    if n == 0 {
    } else {
      SegmentsInside(f, m, n - 1, low, high, lo, hi);
      var before, p := WithSegments(f, m, n - 1), Seg(f, n - 1);
      if IsLoad(f, n - 1) && p.filesz != 0 {
        PutElsewhere(before, p.vaddr, SegBytes(f, p), lo, hi);
      }
    }
  }

  /** Every loadable segment's file bytes go into [low, high). */
  ghost predicate SegmentsIn(f: seq<byte>, low: nat, high: nat)
    requires |f| >= EHDR_SIZE && PhdrsInside(f)
  {
    forall i | 0 <= i < EhdrOf(f).phnum && IsLoad(f, i) ::
      low <= Seg(f, i).vaddr && Seg(f, i).vaddr + Seg(f, i).filesz <= high
  }

  /** In an accepted file every copy stays in the file and in the program area below its last page. */
  lemma AcceptedFits(f: seq<byte>, c: Config, kernelBreak: nat, vaddrBreak: nat, size: nat)
    requires Accepts(f, c, kernelBreak, vaddrBreak) && vaddrBreak <= size
    ensures Fits(f, size, EhdrOf(f).phnum)
    ensures SegmentsIn(f, LOAD_START, High(f))
  {
    var n := EhdrOf(f).phnum;
    hide RoundUp, RoundDown, IdentOk, EhdrOf, IsLoad, MinVaddr, MaxEnd, Seg, PhdrOff;
    PagedFacts(MaxEnd(f, n));
    RoundDownBelow(MinVaddr(f, n));
    forall i | 0 <= i < EhdrOf(f).phnum && IsLoad(f, i)
      ensures LOAD_START <= Seg(f, i).vaddr && Seg(f, i).vaddr + Seg(f, i).filesz <= High(f)
    {
      SegmentWithin(f, n, i);
      assert SegOk(Seg(f, i), |f|);
    }
  }

  lemma RoundDownBelow(x: nat)
    ensures RoundDown(x, PAGE_SIZE) <= x
  {
  }

  // ---- The whole load ----

  /** What the program is told about its buffers. */
  function InfoOf(c: Config, l: Layout, tscFreq: u64): DuckInfo
    requires l.special < W
    requires l.stop <= l.special && l.stdout <= l.special && l.stderr <= l.special && l.ib <= l.special
        && l.ob <= l.special
  {
    DuckInfo(ABI_VERSION, l.stop, c.stdinSize, l.stdout, c.stdoutSize, 0, l.stderr, c.stderrSize, 0, l.ib, c.ibSize,
             l.ob, c.obSize, tscFreq)
  }

  function StartBlock(f: seq<byte>, c: Config, l: Layout, tscFreq: u64): (ws: seq<u64>)
    requires |f| >= EHDR_SIZE && EhdrOf(f).phoff < 0x1_0000_0000 && Ordered(c, l) && l.special <= USER_LIMIT
    ensures |ws| == START_WORDS + INFO_WORDS
  {
    var h := EhdrOf(f);
    StartWords(l.image + h.phoff, h.phentsize, h.phnum, h.entry, l.image, l.random, l.stop - 8 * INFO_WORDS)
    + InfoOf(c, l, tscFreq).Words()
  }

  /** What the program gets for AT_RANDOM. */
  const RANDOM_WORDS: seq<u64> := [0xf44c01c8, 0x22b64652]

  const BLOCK_BYTES: int := 8 * (START_WORDS + INFO_WORDS)

  /** The buffers and the two pages above the program area, written over `m`; `was` is the memory the sources are
      read from. */
  ghost function WithBuffers(f: seq<byte>, was: seq<byte>, m: seq<byte>, s: Sources, c: Config,
      l: Layout): (m': seq<byte>)
    requires |m| == |was| && Ordered(c, l) && l.special <= |m| && SourcesOutside(|m|, s, c, l.special)
    ensures |m'| == |m|
  {
    var m1 := Put(m, l.stop, was[s.stdin..s.stdin + c.stdinSize]);
    var m2 := Put(m1, l.ib, was[s.ib..s.ib + c.ibSize]);
    var m3 := if s.obClear then m2 else Put(m2, l.ob, was[s.ob..s.ob + c.obSize]);
    var m4 := Put(m3, l.image, f[..Min(|f|, PAGE_SIZE)]);
    Put(m4, l.random, WordBytes(RANDOM_WORDS))
  }

  /** Memory after a successful load. */
  ghost function Loaded(f: seq<byte>, m: seq<byte>, s: Sources, c: Config, l: Layout, tscFreq: u64): (m': seq<byte>)
    requires |f| >= EHDR_SIZE && EhdrOf(f).phoff < 0x1_0000_0000 && Fits(f, |m|, EhdrOf(f).phnum)
    requires Ordered(c, l) && l.special <= |m| && l.special <= USER_LIMIT && SourcesOutside(|m|, s, c, l.special)
    ensures |m'| == |m|
  {
    Put(WithBuffers(f, m, WithSegments(f, m, EhdrOf(f).phnum), s, c, l),
        l.stop - BLOCK_BYTES,
        WordBytes(StartBlock(f, c, l, tscFreq)))
  }

  /** memcpy from one part of memory to another part that does not meet it. */
  method Copy(mem: array<byte>, dst: nat, src: nat, n: nat)
    requires (dst + n <= src || src + n <= dst) && src + n <= mem.Length && dst + n <= mem.Length
    modifies mem
    ensures mem[..] == Put(old(mem[..]), dst, old(mem[..])[src..src + n])
  {
    Blit(mem[src..src + n], mem, dst);
  }

  /** The second pass: copy every loadable segment from the file, which stays where it is all the while. */
  method CopySegments(mem: array<byte>, s: Sources, ghost f: seq<byte>, ghost high: nat)
    requires s.elf + s.elfLen <= mem.Length && f == FileOf(mem[..], s) && |f| >= EHDR_SIZE
    requires Outside(s.elf, s.elfLen, high) && Fits(f, mem.Length, EhdrOf(f).phnum) && SegmentsIn(f, LOAD_START, high)
    modifies mem
    ensures mem[..] == WithSegments(f, old(mem[..]), EhdrOf(f).phnum)
  {
    hide Put, IdentOk, EhdrOf, PhdrAt, Le, Field;
    ghost var before := mem[..];
    var h := EhdrOf(mem[s.elf..s.elf + s.elfLen]);
    for i := 0 to h.phnum
      invariant mem[..] == WithSegments(f, before, i)
    {
      FileKept(f, before, i, high, s);
      assert mem[s.elf..s.elf + s.elfLen] == f && Inside(f, i);
      var p := PhdrAt(mem[s.elf..s.elf + s.elfLen], h.phoff + i * h.phentsize);
      assert p == Seg(f, i);
      if p.ptype == PT_LOAD && p.filesz != 0 {
        SubSlice(mem[..], s.elf, s.elf + s.elfLen, p.offset, p.offset + p.filesz);
        Copy(mem, p.vaddr, s.elf + p.offset, p.filesz);
      }
    }
  }

  lemma FileKept(f: seq<byte>, m: seq<byte>, n: nat, high: nat, s: Sources)
    requires |f| >= EHDR_SIZE && n <= EhdrOf(f).phnum && Fits(f, |m|, EhdrOf(f).phnum)
    requires SegmentsIn(f, LOAD_START, high)
    requires s.elf + s.elfLen <= |m| && Outside(s.elf, s.elfLen, high) && f == FileOf(m, s)
    ensures WithSegments(f, m, n)[s.elf..s.elf + s.elfLen] == f
  {
    hide WithSegments, EhdrOf, Seg, IsLoad, PhdrOff;
    SegmentsInside(f, m, n, LOAD_START, high, s.elf, s.elf + s.elfLen);
  }

  /** Outside [0x400000, stop) memory is as it `was`. */
  ghost predicate KeptOutside(m: seq<byte>, was: seq<byte>, stop: nat) {
    && |m| == |was| && LOAD_START <= stop <= |m|
    && m[..LOAD_START] == was[..LOAD_START] && m[stop..] == was[stop..]
  }

  /** The buffers, the file's first page and the random bytes. */
  method CopyBuffers(mem: array<byte>, s: Sources, c: Config, l: Layout, ghost was: seq<byte>)
    requires Ordered(c, l) && l.special <= mem.Length && SourcesOutside(mem.Length, s, c, l.special)
    requires KeptOutside(mem[..], was, l.special)
    modifies mem
    ensures mem[..] == WithBuffers(FileOf(was, s), was, old(mem[..]), s, c, l)
  {
    hide Put, WordBytes, KeptOutside;
    assert |was| == mem.Length by { KeptSize(mem[..], was, l.special); }
    CopyInside(mem, l.stop, s.stdin, c.stdinSize, was, l.special);
    CopyInside(mem, l.ib, s.ib, c.ibSize, was, l.special);
    if !s.obClear {
      CopyInside(mem, l.ob, s.ob, c.obSize, was, l.special);
    }
    var n := Min(s.elfLen, PAGE_SIZE);
    assert FileOf(was, s)[..n] == was[s.elf..s.elf + n];
    CopyInside(mem, l.image, s.elf, n, was, l.special);
    Blit(WordBytes(RANDOM_WORDS), mem, l.random);
  }

  /** Copy from outside [0x400000, stop), where memory is still as it `was`, into it. */
  method CopyInside(mem: array<byte>, dst: nat, src: nat, n: nat, ghost was: seq<byte>, ghost stop: nat)
    requires LOAD_START <= dst && dst + n <= stop <= mem.Length && Outside(src, n, stop) && src + n <= mem.Length
    requires KeptOutside(mem[..], was, stop)
    modifies mem
    ensures |was| == mem.Length && mem[..] == Put(old(mem[..]), dst, was[src..src + n])
    ensures KeptOutside(mem[..], was, stop)
  {
    hide Put, KeptOutside;
    KeptSize(mem[..], was, stop);
    KeptSlice(mem[..], was, stop, src, src + n);
    PutInside(mem[..], was, stop, dst, mem[..][src..src + n]);
    Copy(mem, dst, src, n);
  }

  lemma KeptSize(m: seq<byte>, was: seq<byte>, stop: nat)
    requires KeptOutside(m, was, stop)
    ensures |m| == |was|
  {
  }

  lemma KeptSlice(m: seq<byte>, was: seq<byte>, stop: nat, lo: nat, hi: nat)
    requires KeptOutside(m, was, stop) && lo <= hi <= |m| && Outside(lo, hi - lo, stop)
    ensures |m| == |was| && m[lo..hi] == was[lo..hi]
  {
    if hi <= LOAD_START {
      SubSlice(m, 0, LOAD_START, lo, hi);
      SubSlice(was, 0, LOAD_START, lo, hi);
      assert m[0..LOAD_START] == m[..LOAD_START] && was[0..LOAD_START] == was[..LOAD_START];
    } else {
      SubSlice(m, stop, |m|, lo - stop, hi - stop);
      SubSlice(was, stop, |m|, lo - stop, hi - stop);
    }
  }

  lemma PutInside(m: seq<byte>, was: seq<byte>, stop: nat, at: nat, data: seq<byte>)
    requires KeptOutside(m, was, stop) && LOAD_START <= at && at + |data| <= stop
    ensures stop <= |m| && KeptOutside(Put(m, at, data), was, stop)
  {
    hide Put;
    var t := Put(m, at, data);
    PutElsewhere(m, at, data, 0, LOAD_START);
    PutElsewhere(m, at, data, stop, |m|);
    assert t[0..LOAD_START] == t[..LOAD_START] && m[0..LOAD_START] == m[..LOAD_START];
    assert t[stop..|m|] == t[stop..] && m[stop..|m|] == m[stop..];
  }

  /** load: nothing changes unless the file is accepted; then memory is exactly what Loaded says. */
  method LoadElf(mem: array<byte>, s: Sources, c: Config, kernelBreak: u64, vaddrBreak: u64, tscFreq: u64)
      returns (r: Option<App>)
    requires SourcesOutside(mem.Length, s, c, vaddrBreak) && vaddrBreak <= mem.Length
    modifies mem
    ensures
      var f := FileOf(old(mem[..]), s);
      && (r.Some? <==> Accepts(f, c, kernelBreak, vaddrBreak))
      && (r.None? ==> mem[..] == old(mem[..]))
      && (r.Some? ==>
            Completed(f, old(mem[..]), mem[..], s, c, r.value, tscFreq)
            && r.value.layout == LayoutFrom(High(f), c))
  {
    hide Accepts, LayoutFrom, Ordered, Fits, WithSegments, WithBuffers, WordBytes, StartBlock, SourcesOutside, High,
        HeaderOk, StartWords;
    SourceFacts(mem.Length, s, c, vaddrBreak);
    ghost var before := mem[..];
    var f := mem[s.elf..s.elf + s.elfLen];
    var plan := PlanLayout(f, c, kernelBreak, vaddrBreak);
    if plan.None? {
      return None;
    }
    var l := plan.value;
    AcceptedPlan(f, c, kernelBreak, vaddrBreak, mem.Length, s);
    CopySegments(mem, s, f, High(f));
    SegmentsKeep(f, before, EhdrOf(f).phnum, High(f), l.special);
    CopyBuffers(mem, s, c, l, before);
    var block := StartBlock(f, c, l, tscFreq);
    var rsp := PushWords(mem, l.stop, block);
    return Some(App(EhdrOf(f).entry, rsp, l.stop - 8 * INFO_WORDS, l));
  }

  /** What a successful load leaves behind. */
  ghost predicate Completed(f: seq<byte>, m: seq<byte>, m': seq<byte>, s: Sources, c: Config, app: App, tscFreq: u64) {
    && |f| >= EHDR_SIZE && EhdrOf(f).phoff < 0x1_0000_0000 && Fits(f, |m|, EhdrOf(f).phnum)
    && Ordered(c, app.layout) && app.layout.special <= |m| && app.layout.special <= USER_LIMIT
    && SourcesOutside(|m|, s, c, app.layout.special)
    && m' == Loaded(f, m, s, c, app.layout, tscFreq)
    && app.rsp == app.layout.stop - BLOCK_BYTES && app.info == app.layout.stop - 8 * INFO_WORDS
    && app.entry == EhdrOf(f).entry
    && SegmentsIn(f, LOAD_START, app.layout.hi)
  }

  lemma SourceFacts(size: nat, s: Sources, c: Config, vaddrBreak: nat)
    requires SourcesOutside(size, s, c, vaddrBreak)
    ensures s.elfLen < 0x1_0000_0000 && vaddrBreak <= USER_LIMIT && s.elf + s.elfLen <= size
  {
  }

  lemma AcceptedPlan(f: seq<byte>, c: Config, kernelBreak: nat, vaddrBreak: nat, size: nat, s: Sources)
    requires Accepts(f, c, kernelBreak, vaddrBreak) && SourcesOutside(size, s, c, vaddrBreak) && vaddrBreak <= size
    requires |f| < 0x1_0000_0000
    ensures |f| >= EHDR_SIZE && EhdrOf(f).phoff < 0x1_0000_0000 && PhdrsInside(f)
    ensures Fits(f, size, EhdrOf(f).phnum)
    ensures SegmentsIn(f, LOAD_START, High(f))
    ensures
      var l := LayoutFrom(High(f), c);
      && Ordered(c, l) && LOAD_START <= l.hi == High(f) <= l.special <= vaddrBreak
      && SourcesOutside(size, s, c, l.special) && Outside(s.elf, s.elfLen, l.hi)
      && BLOCK_BYTES <= l.stop <= l.special
  {
    hide RoundUp, IdentOk, EhdrOf, MinVaddr, MaxEnd, SegOk, Paged, Low, PhdrsInside, SegsOk;
    AcceptedFits(f, c, kernelBreak, vaddrBreak, size);
    AcceptedRegions(f, c, kernelBreak, vaddrBreak);
  }

  lemma SegmentsKeep(f: seq<byte>, m: seq<byte>, n: nat, high: nat, stop: nat)
    requires Fits(f, |m|, n) && n == EhdrOf(f).phnum && SegmentsIn(f, LOAD_START, high)
    requires LOAD_START <= high <= stop <= |m|
    ensures KeptOutside(WithSegments(f, m, n), m, stop)
  {
    hide WithSegments, EhdrOf, Seg, IsLoad, PhdrOff;
    var t := WithSegments(f, m, n);
    SegmentsInside(f, m, n, LOAD_START, high, 0, LOAD_START);
    SegmentsInside(f, m, n, LOAD_START, high, stop, |m|);
    assert t[0..LOAD_START] == t[..LOAD_START] && m[0..LOAD_START] == m[..LOAD_START];
    assert t[stop..|m|] == t[stop..] && m[stop..|m|] == m[stop..];
  }

  // ---- What is where after a load ----

  /** The bounds behind every copy. */
  lemma BufferBounds(size: nat, s: Sources, c: Config, l: Layout)
    requires Ordered(c, l) && l.special <= size && SourcesOutside(size, s, c, l.special)
    ensures s.stdin + c.stdinSize <= size && s.ib + c.ibSize <= size && s.ob + c.obSize <= size
    ensures LOAD_START <= l.hi <= l.stop && l.stop + c.stdinSize <= l.ib && l.ib + c.ibSize <= l.ob
    ensures l.ob + c.obSize <= l.image && l.image + PAGE_SIZE == l.random && l.random + PAGE_SIZE == l.special <= size
    ensures BLOCK_BYTES <= PAGE_SIZE <= l.stop
  {
  }

  /** WithBuffers leaves the program area alone, and everything above the random bytes. */
  lemma BuffersElsewhere(f: seq<byte>, was: seq<byte>, m: seq<byte>, s: Sources, c: Config, l: Layout, lo: nat, hi: nat)
    requires |m| == |was| && Ordered(c, l) && l.special <= |m| && SourcesOutside(|m|, s, c, l.special)
    requires lo <= hi <= |m| && (hi <= l.stop || l.random + 16 <= lo)
    ensures WithBuffers(f, was, m, s, c, l)[lo..hi] == m[lo..hi]
  {
    hide Put, WordBytes, Ordered, SourcesOutside;
    BufferBounds(|m|, s, c, l);
    var m1 := Put(m, l.stop, was[s.stdin..s.stdin + c.stdinSize]);
    var m2 := Put(m1, l.ib, was[s.ib..s.ib + c.ibSize]);
    var m3 := if s.obClear then m2 else Put(m2, l.ob, was[s.ob..s.ob + c.obSize]);
    var m4 := Put(m3, l.image, f[..Min(|f|, PAGE_SIZE)]);
    PutElsewhere(m, l.stop, was[s.stdin..s.stdin + c.stdinSize], lo, hi);
    PutElsewhere(m1, l.ib, was[s.ib..s.ib + c.ibSize], lo, hi);
    PutElsewhere(m2, l.ob, was[s.ob..s.ob + c.obSize], lo, hi);
    PutElsewhere(m3, l.image, f[..Min(|f|, PAGE_SIZE)], lo, hi);
    PutElsewhere(m4, l.random, WordBytes(RANDOM_WORDS), lo, hi);
  }

  lemma BuffersThere(f: seq<byte>, was: seq<byte>, m: seq<byte>, s: Sources, c: Config, l: Layout)
    requires |m| == |was| && Ordered(c, l) && l.special <= |m| && SourcesOutside(|m|, s, c, l.special)
    ensures
      var m' := WithBuffers(f, was, m, s, c, l);
      && m'[l.stop..l.stop + c.stdinSize] == was[s.stdin..s.stdin + c.stdinSize]
      && m'[l.ib..l.ib + c.ibSize] == was[s.ib..s.ib + c.ibSize]
      && (!s.obClear ==> m'[l.ob..l.ob + c.obSize] == was[s.ob..s.ob + c.obSize])
      && m'[l.image..l.image + Min(|f|, PAGE_SIZE)] == f[..Min(|f|, PAGE_SIZE)]
  {
    hide Put, WordBytes, Ordered, SourcesOutside;
    BufferBounds(|m|, s, c, l);
    var stdin, ib, ob := was[s.stdin..s.stdin + c.stdinSize], was[s.ib..s.ib + c.ibSize], was[s.ob..s.ob + c.obSize];
    var image, random := f[..Min(|f|, PAGE_SIZE)], WordBytes(RANDOM_WORDS);
    if s.obClear {
      FourPuts(m, l.stop, stdin, l.ib, ib, l.image, image, l.random, random);
    } else {
      FivePuts(m, l.stop, stdin, l.ib, ib, l.ob, ob, l.image, image, l.random, random);
    }
  }

  /** Writes at ascending, disjoint places are all there at the end. */
  lemma FourPuts(m: seq<byte>, a: nat, x: seq<byte>, b: nat, y: seq<byte>, d: nat, z: seq<byte>, e: nat, w: seq<byte>)
    requires a + |x| <= b && b + |y| <= d && d + |z| <= e && e + |w| <= |m|
    ensures
      var m' := Put(Put(Put(Put(m, a, x), b, y), d, z), e, w);
      m'[a..a + |x|] == x && m'[b..b + |y|] == y && m'[d..d + |z|] == z
  {
    hide Put;
    var m1 := Put(m, a, x);
    var m2 := Put(m1, b, y);
    var m3 := Put(m2, d, z);
    PutReads(m, a, x);
    Through(m1, b, y, a, |x|);
    Through(m2, d, z, a, |x|);
    Through(m3, e, w, a, |x|);
    PutReads(m1, b, y);
    Through(m2, d, z, b, |y|);
    Through(m3, e, w, b, |y|);
    PutReads(m2, d, z);
    Through(m3, e, w, d, |z|);
  }

  lemma FivePuts(m: seq<byte>, o: nat, v: seq<byte>, a: nat, x: seq<byte>, b: nat, y: seq<byte>, d: nat,
      z: seq<byte>, e: nat, w: seq<byte>)
    requires o + |v| <= a && a + |x| <= b && b + |y| <= d && d + |z| <= e && e + |w| <= |m|
    ensures
      var m' := Put(Put(Put(Put(Put(m, o, v), a, x), b, y), d, z), e, w);
      m'[o..o + |v|] == v && m'[a..a + |x|] == x && m'[b..b + |y|] == y && m'[d..d + |z|] == z
  {
    hide Put;
    var m0 := Put(m, o, v);
    var m1 := Put(m0, a, x);
    var m2 := Put(m1, b, y);
    var m3 := Put(m2, d, z);
    FourPuts(m0, a, x, b, y, d, z, e, w);
    PutReads(m, o, v);
    Through(m0, a, x, o, |v|);
    Through(m1, b, y, o, |v|);
    Through(m2, d, z, o, |v|);
    Through(m3, e, w, o, |v|);
  }

  lemma Through(m: seq<byte>, at: nat, data: seq<byte>, lo: nat, n: nat)
    requires at + |data| <= |m| && lo + n <= at
    ensures Put(m, at, data)[lo..lo + n] == m[lo..lo + n]
  {
    PutElsewhere(m, at, data, lo, lo + n);
  }

  /** A load leaves everything below 0x400000 and everything above the random bytes as it was. */
  lemma LoadConfined(f: seq<byte>, m: seq<byte>, m': seq<byte>, s: Sources, c: Config, app: App, tscFreq: u64,
      lo: nat, hi: nat)
    requires Completed(f, m, m', s, c, app, tscFreq)
    requires lo <= hi <= |m| && (hi <= LOAD_START || app.layout.random + 16 <= lo)
    ensures m'[lo..hi] == m[lo..hi]
  {
    hide Put, WithBuffers, WithSegments, WordBytes, StartBlock, EhdrOf;
    var l, n := app.layout, EhdrOf(f).phnum;
    SegmentsInside(f, m, n, LOAD_START, l.hi, lo, hi);
    BuffersElsewhere(f, m, WithSegments(f, m, n), s, c, l, lo, hi);
    PutElsewhere(WithBuffers(f, m, WithSegments(f, m, n), s, c, l), l.stop - BLOCK_BYTES,
      WordBytes(StartBlock(f, c, l, tscFreq)), lo, hi);
  }

  /** Below the last page, a byte of the program area is the byte of the last file range covering it, or unchanged. */
  lemma LoadedProgramByte(f: seq<byte>, m: seq<byte>, m': seq<byte>, s: Sources, c: Config, app: App, tscFreq: u64,
      a: nat)
    requires Completed(f, m, m', s, c, app, tscFreq) && a < app.layout.stop - PAGE_SIZE
    ensures
      var i := LastCover(f, EhdrOf(f).phnum, a);
      if i < 0 then m'[a] == m[a]
      else
        var at := Seg(f, i).offset + (a - Seg(f, i).vaddr);
        at < |f| && m'[a] == f[at]
  {
    hide Put, WithBuffers, WithSegments, WordBytes, StartBlock, EhdrOf, LastCover, Seg, IsLoad;
    var l, n := app.layout, EhdrOf(f).phnum;
    var m1 := WithSegments(f, m, n);
    var m2 := WithBuffers(f, m, m1, s, c, l);
    SegmentByte(f, m, n, a);
    BuffersElsewhere(f, m, m1, s, c, l, a, a + 1);
    assert m2[a] == m2[a..a + 1][0] && m1[a] == m1[a..a + 1][0];
    PutByte(m2, l.stop - BLOCK_BYTES, WordBytes(StartBlock(f, c, l, tscFreq)), a);
  }

  /** stdin, the input and output buffers and the file's first page are where the program will look for them. */
  lemma LoadedBuffers(f: seq<byte>, m: seq<byte>, m': seq<byte>, s: Sources, c: Config, app: App, tscFreq: u64)
    requires Completed(f, m, m', s, c, app, tscFreq)
    ensures
      var l := app.layout;
      && m'[l.stop..l.stop + c.stdinSize] == m[s.stdin..s.stdin + c.stdinSize]
      && m'[l.ib..l.ib + c.ibSize] == m[s.ib..s.ib + c.ibSize]
      && (!s.obClear ==> m'[l.ob..l.ob + c.obSize] == m[s.ob..s.ob + c.obSize])
      && m'[l.image..l.image + Min(|f|, PAGE_SIZE)] == f[..Min(|f|, PAGE_SIZE)]
  {
    hide Put, WithBuffers, WithSegments, WordBytes, StartBlock, EhdrOf, Ordered, SourcesOutside, Fits, Seg, IsLoad;
    var l, n := app.layout, EhdrOf(f).phnum;
    BufferBounds(|m|, s, c, l);
    var m1 := WithSegments(f, m, n);
    var m2 := WithBuffers(f, m, m1, s, c, l);
    BuffersThere(f, m, m1, s, c, l);
    var b := WordBytes(StartBlock(f, c, l, tscFreq));
    PutElsewhere(m2, l.stop - BLOCK_BYTES, b, l.stop, l.stop + c.stdinSize);
    PutElsewhere(m2, l.stop - BLOCK_BYTES, b, l.ib, l.ib + c.ibSize);
    PutElsewhere(m2, l.stop - BLOCK_BYTES, b, l.ob, l.ob + c.obSize);
    PutElsewhere(m2, l.stop - BLOCK_BYTES, b, l.image, l.image + Min(|f|, PAGE_SIZE));
  }

  /** An output buffer that the request wants cleared is left as it was in memory: nothing clears it. */
  lemma LoadedObKept(f: seq<byte>, m: seq<byte>, m': seq<byte>, s: Sources, c: Config, app: App, tscFreq: u64)
    requires Completed(f, m, m', s, c, app, tscFreq) && s.obClear
    ensures
      var l := app.layout;
      m'[l.ob..l.ob + c.obSize] == m[l.ob..l.ob + c.obSize]
  {
    hide Put, WithSegments, WordBytes, StartBlock, EhdrOf, Ordered, SourcesOutside, Fits, Seg, IsLoad;
    var l, n := app.layout, EhdrOf(f).phnum;
    BufferBounds(|m|, s, c, l);
    var lo, hi := l.ob, l.ob + c.obSize;
    var m0 := WithSegments(f, m, n);
    var m1 := Put(m0, l.stop, m[s.stdin..s.stdin + c.stdinSize]);
    var m2 := Put(m1, l.ib, m[s.ib..s.ib + c.ibSize]);
    var m4 := Put(m2, l.image, f[..Min(|f|, PAGE_SIZE)]);
    SegmentsInside(f, m, n, LOAD_START, l.hi, lo, hi);
    PutElsewhere(m0, l.stop, m[s.stdin..s.stdin + c.stdinSize], lo, hi);
    PutElsewhere(m1, l.ib, m[s.ib..s.ib + c.ibSize], lo, hi);
    PutElsewhere(m2, l.image, f[..Min(|f|, PAGE_SIZE)], lo, hi);
    PutElsewhere(m4, l.random, WordBytes(RANDOM_WORDS), lo, hi);
    PutElsewhere(WithBuffers(f, m, m0, s, c, l), l.stop - BLOCK_BYTES, WordBytes(StartBlock(f, c, l, tscFreq)), lo, hi);
  }

  lemma LoadedRandom(f: seq<byte>, m: seq<byte>, m': seq<byte>, s: Sources, c: Config, app: App, tscFreq: u64)
    requires Completed(f, m, m', s, c, app, tscFreq)
    ensures m'[app.layout.random..app.layout.random + 16] == WordBytes(RANDOM_WORDS)
  {
    hide WithSegments, StartBlock, EhdrOf, Put, WordBytes;
    var l, n := app.layout, EhdrOf(f).phnum;
    var m1 := WithSegments(f, m, n);
    var m2 := WithBuffers(f, m, m1, s, c, l);
    RandomThere(f, m, m1, s, c, l);
    PutElsewhere(m2, l.stop - BLOCK_BYTES, WordBytes(StartBlock(f, c, l, tscFreq)), l.random, l.random + 16);
  }

  lemma RandomThere(f: seq<byte>, was: seq<byte>, m: seq<byte>, s: Sources, c: Config, l: Layout)
    requires |m| == |was| && Ordered(c, l) && l.special <= |m| && SourcesOutside(|m|, s, c, l.special)
    ensures WithBuffers(f, was, m, s, c, l)[l.random..l.random + 16] == WordBytes(RANDOM_WORDS)
  {
    hide Put, WordBytes, Ordered, SourcesOutside;
    BufferBounds(|m|, s, c, l);
    var m1 := Put(m, l.stop, was[s.stdin..s.stdin + c.stdinSize]);
    var m2 := Put(m1, l.ib, was[s.ib..s.ib + c.ibSize]);
    var m3 := if s.obClear then m2 else Put(m2, l.ob, was[s.ob..s.ob + c.obSize]);
    PutReads(Put(m3, l.image, f[..Min(|f|, PAGE_SIZE)]), l.random, WordBytes(RANDOM_WORDS));
  }

  lemma StackAligned(stop: nat)
    requires stop % PAGE_SIZE == 0 && stop >= BLOCK_BYTES
    ensures (stop - BLOCK_BYTES) % 16 == 0
  {
    assert stop == stop / PAGE_SIZE * PAGE_SIZE;
  }

  /** The startup block is in the last page of the program area, rsp is 16-byte aligned, and every word reads back. */
  lemma LoadedStartup(f: seq<byte>, m: seq<byte>, m': seq<byte>, s: Sources, c: Config, app: App, tscFreq: u64, k: nat)
    requires Completed(f, m, m', s, c, app, tscFreq) && k < START_WORDS + INFO_WORDS
    ensures app.layout.stop - PAGE_SIZE <= app.rsp && app.rsp % 16 == 0 && app.rsp + 8 * START_WORDS == app.info
    ensures WordAt(m', app.rsp + 8 * k) == StartBlock(f, c, app.layout, tscFreq)[k]
  {
    hide Put, WithBuffers, WithSegments, WordBytes, StartBlock, EhdrOf, SourcesOutside, Fits, WordAt;
    var l, n := app.layout, EhdrOf(f).phnum;
    var m2 := WithBuffers(f, m, WithSegments(f, m, n), s, c, l);
    var block := StartBlock(f, c, l, tscFreq);
    PutReads(m2, app.rsp, WordBytes(block));
    StoredWord(m', app.rsp, block, k);
    StackAligned(l.stop);
  }

  /** The record lies at `info`, encoded as it was made. */
  lemma LoadedRecord(f: seq<byte>, m: seq<byte>, m': seq<byte>, s: Sources, c: Config, app: App, tscFreq: u64)
    requires Completed(f, m, m', s, c, app, tscFreq)
    ensures app.info + 112 == app.layout.stop <= app.layout.special <= |m'| && app.layout.special < W
    ensures RecordAt(m', app.info, InfoOf(c, app.layout, tscFreq))
  {
    hide WithBuffers, WithSegments, WordBytes, EhdrOf, SourcesOutside, Fits, WordAt, Loaded, StartWords, DuckInfo.Words,
        StartBlock, RecordAt;
    var l := app.layout;
    var block, info := StartBlock(f, c, l, tscFreq), InfoOf(c, l, tscFreq).Words();
    BlockEnd(f, c, l, tscFreq);
    forall k: nat | k < INFO_WORDS
      ensures WordAt(m', app.info + 8 * k) == info[k]
    {
      LoadedStartup(f, m, m', s, c, app, tscFreq, START_WORDS + k);
      assert app.rsp + 8 * (START_WORDS + k) == app.info + 8 * k;
    }
    RecordFromWords(m', app.info, InfoOf(c, l, tscFreq));
  }

  lemma BlockEnd(f: seq<byte>, c: Config, l: Layout, tscFreq: u64)
    requires |f| >= EHDR_SIZE && EhdrOf(f).phoff < 0x1_0000_0000 && Ordered(c, l) && l.special <= USER_LIMIT
    ensures StartBlock(f, c, l, tscFreq)[START_WORDS..] == InfoOf(c, l, tscFreq).Words()
  {
    hide StartWords, EhdrOf, DuckInfo.Words;
  }
}
