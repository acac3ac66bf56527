/**
 The program headers as the program reads them through AT_PHDR. The loader copies only the first page of the file, so
 headers beyond it are not there.
 */
module ElfHeaders {
  import opened Machine
  import opened Bytes
  import opened ElfFile
  import opened ElfLayout
  import opened ElfLoader
  import opened Startup
  import opened Abi
  import opened ElfEncoding

  /** Where the last program header ends in the file. */
  function TableEnd(f: seq<byte>): nat
    requires |f| >= EHDR_SIZE && EhdrOf(f).phnum > 0
  {
    PhdrOff(f, EhdrOf(f).phnum - 1) + PHDR_SIZE
  }

  /**
   The header table lies in the first page. Beyond it the program finds the two random words, so a table that ends
   inside them survives only if it happens to hold those very bytes.
   */
  predicate TableCopied(f: seq<byte>)
    requires |f| >= EHDR_SIZE && EhdrOf(f).phnum > 0
  {
    || TableEnd(f) <= PAGE_SIZE
    || (TableEnd(f) <= |f| && TableEnd(f) <= PAGE_SIZE + 16
        && f[PAGE_SIZE..TableEnd(f)] == WordBytes(RANDOM_WORDS)[..TableEnd(f) - PAGE_SIZE])
  }

  /** Reading `phnum` headers of `phentsize` bytes from address `phdr` on yields those of the file. */
  ghost predicate HeadersRead(f: seq<byte>, m: seq<byte>, phdr: nat)
    requires |f| >= EHDR_SIZE && PhdrsInside(f)
  {
    forall i | 0 <= i < EhdrOf(f).phnum :: HeaderRead(f, m, phdr, i)
  }

  ghost predicate HeaderRead(f: seq<byte>, m: seq<byte>, phdr: nat, i: nat)
    requires |f| >= EHDR_SIZE && Inside(f, i)
  {
    var at := phdr + (PhdrOff(f, i) - EhdrOf(f).phoff);
    && 0 <= at && at + PHDR_SIZE <= |m|
    && m[at..at + PHDR_SIZE] == f[PhdrOff(f, i)..PhdrOff(f, i) + PHDR_SIZE]
  }

  /** One load of `f`, with whatever else in memory. */
  ghost predicate LoadOf(f: seq<byte>, m: seq<byte>, m': seq<byte>, s: Sources, c: Config, app: App, tscFreq: u64)
    requires |f| >= EHDR_SIZE && PhdrsInside(f)
  {
    && Completed(f, m, m', s, c, app, tscFreq) && app.layout == LayoutFrom(High(f), c)
    && s.elf + s.elfLen <= |m| && FileOf(m, s) == f
  }

  lemma {:induction false} MulMonotone(x: nat, y: nat, e: nat)
    requires x <= y
    ensures x * e <= y * e
  {
    if x == y {
    } else {
      MulMonotone(x, y - 1, e);
      assert y * e == (y - 1) * e + e;
    }
  }

  lemma HeaderBelowEnd(f: seq<byte>, i: nat)
    requires |f| >= EHDR_SIZE && i < EhdrOf(f).phnum
    ensures EhdrOf(f).phoff <= PhdrOff(f, i) && PhdrOff(f, i) + PHDR_SIZE <= TableEnd(f)
  {
    hide EhdrOf;
    MulMonotone(0, i, EhdrOf(f).phentsize);
    MulMonotone(i, EhdrOf(f).phnum - 1, EhdrOf(f).phentsize);
  }

  /** `n` words of memory from `at` on. */
  ghost function WordsAt(m: seq<byte>, at: nat, n: nat): (ws: seq<u64>)
    requires at + 8 * n <= |m|
    ensures |ws| == n && forall k: nat | k < n :: ws[k] == WordAt(m, at + 8 * k)
  {
    seq(n, k requires 0 <= k < n => WordAt(m, at + 8 * k))
  }

  /**
   What the program's C library finds from its stack pointer on after a load: no arguments, no environment, and behind
   each auxiliary type the value from the file's header or the layout.
   */
  lemma LoadedStack(f: seq<byte>, m: seq<byte>, m': seq<byte>, s: Sources, c: Config, app: App, tscFreq: u64)
    requires Completed(f, m, m', s, c, app, tscFreq)
    ensures app.rsp + 8 * 48 == app.layout.stop <= |m'| && app.entry == EhdrOf(f).entry
    ensures
      var ws, h, l := WordsAt(m', app.rsp, 48), EhdrOf(f), app.layout;
      && ws[0] == 0 && ws[1] == 0 && ws[2] == 0
      && Aux(ws, 3, AT_PHDR) == Some(l.image + h.phoff) && Aux(ws, 3, AT_PHENT) == Some(h.phentsize)
      && Aux(ws, 3, AT_PHNUM) == Some(h.phnum) && Aux(ws, 3, AT_ENTRY) == Some(h.entry)
      && Aux(ws, 3, AT_BASE) == Some(l.image) && Aux(ws, 3, AT_RANDOM) == Some(l.random)
      && Aux(ws, 3, AT_DUCK) == Some(app.info) && Aux(ws, 3, AT_PAGESZ) == Some(4096)
  {
    hide EhdrOf, Aux, StartWords, WithBuffers, WithSegments, WordBytes, SourcesOutside, Fits, WordAt, Loaded,
        StartBlock, DuckInfo.Words;
    var ws, l := WordsAt(m', app.rsp, 48), app.layout;
    var block := StartBlock(f, c, l, tscFreq);
    forall k: nat | k < 48
      ensures ws[k] == block[k]
    {
      LoadedStartup(f, m, m', s, c, app, tscFreq, k);
    }
    assert ws == block;
    BlockFound(f, c, l, tscFreq);
  }

  lemma BlockFound(f: seq<byte>, c: Config, l: Layout, tscFreq: u64)
    requires |f| >= EHDR_SIZE && EhdrOf(f).phoff < 0x1_0000_0000 && Ordered(c, l) && l.special <= USER_LIMIT
    ensures
      var ws, h := StartBlock(f, c, l, tscFreq), EhdrOf(f);
      && ws[0] == 0 && ws[1] == 0 && ws[2] == 0
      && Aux(ws, 3, AT_PHDR) == Some(l.image + h.phoff) && Aux(ws, 3, AT_PHENT) == Some(h.phentsize)
      && Aux(ws, 3, AT_PHNUM) == Some(h.phnum) && Aux(ws, 3, AT_ENTRY) == Some(h.entry)
      && Aux(ws, 3, AT_BASE) == Some(l.image) && Aux(ws, 3, AT_RANDOM) == Some(l.random)
      && Aux(ws, 3, AT_DUCK) == Some(l.stop - 112) && Aux(ws, 3, AT_PAGESZ) == Some(4096)
  {
    hide EhdrOf, Aux, StartWords, DuckInfo.Words;
    var h := EhdrOf(f);
    StartupRead(l.image + h.phoff, h.phentsize, h.phnum, h.entry, l.image, l.random, l.stop - 8 * INFO_WORDS,
                InfoOf(c, l, tscFreq).Words());
  }

  /** Following the record from AT_DUCK, the program finds each buffer with its size. */
  lemma LoadedInfo(f: seq<byte>, m: seq<byte>, m': seq<byte>, s: Sources, c: Config, app: App, tscFreq: u64)
    requires Completed(f, m, m', s, c, app, tscFreq)
    ensures app.info + 112 <= |m'| == |m|
    ensures WordAt(m', app.info) == 40 && WordAt(m', app.info + 104) == tscFreq
    ensures WordAt(m', app.info + 16) == c.stdinSize
    ensures Found(m', WordAt(m', app.info + 8), c.stdinSize, m, s.stdin)
    ensures WordAt(m', app.info + 24) == app.layout.stdout && WordAt(m', app.info + 32) == c.stdoutSize
    ensures WordAt(m', app.info + 48) == app.layout.stderr && WordAt(m', app.info + 56) == c.stderrSize
    ensures WordAt(m', app.info + 40) == WordAt(m', app.info + 64) == 0
    ensures WordAt(m', app.info + 80) == c.ibSize
    ensures Found(m', WordAt(m', app.info + 72), c.ibSize, m, s.ib)
    ensures WordAt(m', app.info + 96) == c.obSize && WordAt(m', app.info + 88) == app.layout.ob
    ensures Found(m', WordAt(m', app.info + 88), c.obSize, m, if s.obClear then app.layout.ob else s.ob)
  {
    hide Completed, Found, WordAt;
    LoadedRecord(f, m, m', s, c, app, tscFreq);
    BuffersFound(f, m, m', s, c, app, tscFreq);
  }

  lemma BuffersFound(f: seq<byte>, m: seq<byte>, m': seq<byte>, s: Sources, c: Config, app: App, tscFreq: u64)
    requires Completed(f, m, m', s, c, app, tscFreq)
    ensures |m'| == |m|
    ensures Found(m', app.layout.stop, c.stdinSize, m, s.stdin) && Found(m', app.layout.ib, c.ibSize, m, s.ib)
    ensures Found(m', app.layout.ob, c.obSize, m, if s.obClear then app.layout.ob else s.ob)
  {
    hide EhdrOf, WithBuffers, WithSegments, WordBytes, Fits, Loaded, StartBlock, Ordered, SourcesOutside;
    BufferBounds(|m|, s, c, app.layout);
    LoadedBuffers(f, m, m', s, c, app, tscFreq);
    if s.obClear {
      LoadedObKept(f, m, m', s, c, app, tscFreq);
    }
  }

  /** `n` bytes of memory at `a` are those that were at `src`. */
  ghost predicate Found(now: seq<byte>, a: nat, n: nat, was: seq<byte>, src: nat) {
    a + n <= |now| && src + n <= |was| && now[a..a + n] == was[src..src + n]
  }

  /** The bytes of program header `i` are the record `p`. */
  ghost predicate HeaderIs(f: seq<byte>, i: nat, p: Elf64Phdr)
    requires |f| >= EHDR_SIZE
  {
    Inside(f, i) && f[PhdrOff(f, i)..PhdrOff(f, i) + PHDR_SIZE] == p.Encode()
  }

  /** Header `i` is the last one whose file range covers `a`, and its bytes are the record `p`. */
  ghost predicate LastRecord(f: seq<byte>, a: nat, i: nat, p: Elf64Phdr) {
    && |f| >= EHDR_SIZE && PhdrsInside(f) && i < EhdrOf(f).phnum
    && i == LastCover(f, EhdrOf(f).phnum, a) && HeaderIs(f, i, p)
  }

  ghost predicate CameFrom(now: seq<byte>, a: nat, f: seq<byte>, o: int) {
    a < |now| && 0 <= o < |f| && now[a] == f[o]
  }

  /** Said of the file's own records: a byte of the program comes from the last segment covering it, at p_offset on. */
  lemma LoadedFromRecord(f: seq<byte>, m: seq<byte>, m': seq<byte>, s: Sources, c: Config, app: App, tscFreq: u64,
                         a: nat, i: nat, p: Elf64Phdr)
    requires Completed(f, m, m', s, c, app, tscFreq) && a < app.layout.stop - PAGE_SIZE && LastRecord(f, a, i, p)
    ensures p.ptype == 1 && p.vaddr <= a < p.vaddr + p.filesz && CameFrom(m', a, f, p.offset + (a - p.vaddr))
  {
    hide Completed, EhdrOf, PhdrAt, PhdrOff, Elf64Phdr.Encode, LastCover, Inside, Seg;
    HeadersInside(f, m, m', s, c, app, tscFreq);
    assert Covers(f, i, a);
    SegDecodes(f, i, p);
    LoadedProgramByte(f, m, m', s, c, app, tscFreq, a);
  }

  lemma HeadersInside(f: seq<byte>, m: seq<byte>, m': seq<byte>, s: Sources, c: Config, app: App, tscFreq: u64)
    requires Completed(f, m, m', s, c, app, tscFreq)
    ensures |f| >= EHDR_SIZE && forall k | 0 <= k < EhdrOf(f).phnum :: Inside(f, k)
    ensures |m'| == |m| && app.layout.stop <= |m|
  {
    hide EhdrOf, Loaded, SourcesOutside, WithBuffers, WithSegments, StartBlock;
  }

  // ---- A copied table is read back ----

  lemma SliceByte(s: seq<byte>, lo: nat, hi: nat, k: nat)
    requires lo <= hi <= |s| && k < hi - lo
    ensures s[lo..hi][k] == s[lo + k] && (lo == 0 ==> s[..hi][k] == s[k])
  {
  }

  /** Byte `o` of the image: the file's first page, then the random bytes. */
  lemma ImageByte(f: seq<byte>, m: seq<byte>, m': seq<byte>, s: Sources, c: Config, app: App, tscFreq: u64, o: nat)
    requires Completed(f, m, m', s, c, app, tscFreq) && o < |f| && o < PAGE_SIZE + 16
    ensures app.layout.image + o < |m'|
    ensures m'[app.layout.image + o] == if o < PAGE_SIZE then f[o] else WordBytes(RANDOM_WORDS)[o - PAGE_SIZE]
  {
    hide WordBytes, Fits, Loaded, SourcesOutside;
    var image, random := app.layout.image, app.layout.random;
    assert |m'| == |m|;
    if o < PAGE_SIZE {
      LoadedBuffers(f, m, m', s, c, app, tscFreq);
      SliceByte(m', image, image + Min(|f|, PAGE_SIZE), o);
      SliceByte(f, 0, Min(|f|, PAGE_SIZE), o);
    } else {
      LoadedRandom(f, m, m', s, c, app, tscFreq);
      SliceByte(m', random, random + 16, o - PAGE_SIZE);
    }
  }

  lemma CopiedIsRead(f: seq<byte>, m: seq<byte>, m': seq<byte>, s: Sources, c: Config, app: App, tscFreq: u64, i: nat)
    requires |f| >= EHDR_SIZE && PhdrsInside(f) && i < EhdrOf(f).phnum && TableCopied(f)
    requires Completed(f, m, m', s, c, app, tscFreq)
    ensures HeaderRead(f, m', app.layout.image + EhdrOf(f).phoff, i)
  {
    hide EhdrOf, Completed, WordBytes, PhdrOff;
    var at, off := app.layout.image + PhdrOff(f, i), PhdrOff(f, i);
    assert Inside(f, i);
    HeaderBelowEnd(f, i);
    var end := TableEnd(f);
    ImageByte(f, m, m', s, c, app, tscFreq, off + PHDR_SIZE - 1);
    var read, wanted := m'[at..at + PHDR_SIZE], f[off..off + PHDR_SIZE];
    forall k | 0 <= k < PHDR_SIZE
      ensures read[k] == wanted[k]
    {
      var o := off + k;
      ImageByte(f, m, m', s, c, app, tscFreq, o);
      if o >= PAGE_SIZE {
        assert f[o] == f[PAGE_SIZE..end][o - PAGE_SIZE];
      }
    }
    assert read == wanted;
  }

  // ---- A table that is not copied is lost in some memory ----

  /** Memory with the file above `from` and the byte `fill` everywhere else. */
  function Filler(f: seq<byte>, c: Config, from: nat, fill: byte): (m: seq<byte>)
    ensures |m| == from + |f| + c.stdinSize + c.ibSize + c.obSize
  {
    seq(from + |f| + c.stdinSize + c.ibSize + c.obSize,
        a requires 0 <= a => if from <= a < from + |f| then f[a - from] else fill)
  }

  function SourcesAt(f: seq<byte>, from: nat): Sources {
    Sources(from, |f|, from, from, from, true)
  }

  function AppFor(f: seq<byte>, l: Layout): App
    requires |f| >= EHDR_SIZE && l.stop >= BLOCK_BYTES
  {
    App(EhdrOf(f).entry, l.stop - BLOCK_BYTES, l.stop - 8 * INFO_WORDS, l)
  }

  lemma FillerLoads(f: seq<byte>, c: Config, kernelBreak: nat, vaddrBreak: nat, from: nat, fill: byte)
      returns (m: seq<byte>, m': seq<byte>, s: Sources, app: App)
    requires Accepts(f, c, kernelBreak, vaddrBreak) && vaddrBreak <= USER_LIMIT && |f| < 0x1_0000_0000
    requires vaddrBreak <= from
    ensures LoadOf(f, m, m', s, c, app, 0) && m == Filler(f, c, from, fill) && vaddrBreak <= |m|
  {
    hide Accepts, Fits, WithSegments, WithBuffers, WordBytes, StartBlock, High, LayoutFrom, Loaded, EhdrOf, Seg, IsLoad;
    m, s := Filler(f, c, from, fill), SourcesAt(f, from);
    AcceptedPlan(f, c, kernelBreak, vaddrBreak, |m|, s);
    var l := LayoutFrom(High(f), c);
    m', app := Loaded(f, m, s, c, l, 0), AppFor(f, l);
    assert FileOf(m, s) == f;
  }

  /** Above the random bytes memory is whatever it was. */
  lemma BeyondImage(f: seq<byte>, m: seq<byte>, m': seq<byte>, s: Sources, c: Config, app: App, tscFreq: u64, a: nat)
    requires Completed(f, m, m', s, c, app, tscFreq) && app.layout.random + 16 <= a < |m|
    ensures |m'| == |m| && m'[a] == m[a]
  {
    hide Fits, Loaded, SourcesOutside;
    LoadConfined(f, m, m', s, c, app, tscFreq, a, a + 1);
    assert m'[a] == m'[a..a + 1][0] && m[a] == m[a..a + 1][0];
  }

  /** The last header is read wrongly as soon as its byte `o` is. */
  lemma WrongByte(f: seq<byte>, m': seq<byte>, image: nat, o: nat)
    requires |f| >= EHDR_SIZE && PhdrsInside(f) && EhdrOf(f).phnum > 0 && TableEnd(f) <= |f|
    requires TableEnd(f) - PHDR_SIZE <= o < TableEnd(f) && image + o < |m'| && m'[image + o] != f[o]
    ensures !HeadersRead(f, m', image + EhdrOf(f).phoff)
  {
    hide EhdrOf, PhdrOff;
    var i := EhdrOf(f).phnum - 1;
    var off := PhdrOff(f, i);
    assert Inside(f, i);
    if image + off + PHDR_SIZE <= |m'| {
      assert m'[image + off..image + off + PHDR_SIZE][o - off] == m'[image + o];
      assert f[off..off + PHDR_SIZE][o - off] == f[o];
    }
    assert !HeaderRead(f, m', image + EhdrOf(f).phoff, i);
  }

  /** A byte of the last header that the program finds in no copy of the file. */
  lemma UncopiedByte(f: seq<byte>) returns (o: nat)
    requires |f| >= EHDR_SIZE && PhdrsInside(f) && EhdrOf(f).phnum > 0 && !TableCopied(f)
    ensures TableEnd(f) - PHDR_SIZE <= o < TableEnd(f) <= |f| && o >= PAGE_SIZE
    ensures o < PAGE_SIZE + 16 ==> f[o] != WordBytes(RANDOM_WORDS)[o - PAGE_SIZE]
  {
    hide EhdrOf, PhdrOff, WordBytes;
    var end, random := TableEnd(f), WordBytes(RANDOM_WORDS);
    assert Inside(f, EhdrOf(f).phnum - 1);
    o := end - 1;
    if end <= PAGE_SIZE + 16 {
      var k :| 0 <= k < end - PAGE_SIZE && f[PAGE_SIZE..end][k] != random[..end - PAGE_SIZE][k];
      o := PAGE_SIZE + k;
    }
  }

  lemma LostSomewhere(f: seq<byte>, c: Config, kernelBreak: nat, vaddrBreak: nat)
      returns (m: seq<byte>, m': seq<byte>, s: Sources, app: App)
    requires Accepts(f, c, kernelBreak, vaddrBreak) && vaddrBreak <= USER_LIMIT && |f| < 0x1_0000_0000
    requires EhdrOf(f).phnum > 0 && !TableCopied(f)
    ensures LoadOf(f, m, m', s, c, app, 0) && !HeadersRead(f, m', app.layout.image + EhdrOf(f).phoff)
  {
    hide EhdrOf, WordBytes, Completed, High, LayoutFrom, SegsOk, Low, TableCopied, TableEnd, HeadersRead, Filler;
    var o := UncopiedByte(f);
    var fill: byte := if f[o] == 0 then 1 else 0;
    m, m', s, app := FillerLoads(f, c, kernelBreak, vaddrBreak, vaddrBreak + |f|, fill);
    ImageInside(f, m, m', s, c, app, vaddrBreak);
    var a := app.layout.image + o;
    if o < PAGE_SIZE + 16 {
      ImageByte(f, m, m', s, c, app, 0, o);
    } else {
      FillerByte(f, c, vaddrBreak + |f|, fill, a);
      BeyondImage(f, m, m', s, c, app, 0, a);
    }
    WrongByte(f, m', app.layout.image, o);
  }

  lemma FillerByte(f: seq<byte>, c: Config, from: nat, fill: byte, a: nat)
    requires a < from
    ensures Filler(f, c, from, fill)[a] == fill
  {
  }

  lemma ImageInside(f: seq<byte>, m: seq<byte>, m': seq<byte>, s: Sources, c: Config, app: App, vaddrBreak: nat)
    requires Completed(f, m, m', s, c, app, 0) && vaddrBreak <= |m| && app.layout.special <= vaddrBreak
    ensures app.layout.image + 2 * PAGE_SIZE == app.layout.special && app.layout.random == app.layout.image + PAGE_SIZE
    ensures |m'| == |m|
  {
    hide Fits, Loaded, SourcesOutside;
  }

  // ---- The result ----

  /** An accepted file has a program header. */
  lemma AcceptedHasHeader(f: seq<byte>, c: Config, kernelBreak: nat, vaddrBreak: nat)
    requires Accepts(f, c, kernelBreak, vaddrBreak)
    ensures EhdrOf(f).phnum > 0
  {
    hide IdentOk, LayoutFrom;
  }

  /**
   For an accepted file the program finds the file's own headers through AT_PHDR, whatever else is in memory, exactly
   when the header table is copied.
   */
  lemma HeadersReadIffCopied(f: seq<byte>, c: Config, kernelBreak: nat, vaddrBreak: nat)
    requires Accepts(f, c, kernelBreak, vaddrBreak) && vaddrBreak <= USER_LIMIT && |f| < 0x1_0000_0000
    ensures EhdrOf(f).phnum > 0
    ensures TableCopied(f) <==>
              forall m, m', s, app, tscFreq | LoadOf(f, m, m', s, c, app, tscFreq) ::
                HeadersRead(f, m', app.layout.image + EhdrOf(f).phoff)
  {
    hide EhdrOf, PhdrOff, Completed, High, LayoutFrom, TableCopied, HeaderRead, SegsOk, Low;
    AcceptedHasHeader(f, c, kernelBreak, vaddrBreak);
    if TableCopied(f) {
      forall m, m', s, app, tscFreq | LoadOf(f, m, m', s, c, app, tscFreq)
        ensures HeadersRead(f, m', app.layout.image + EhdrOf(f).phoff)
      {
        var phdr := app.layout.image + EhdrOf(f).phoff;
        forall i | 0 <= i < EhdrOf(f).phnum
          ensures HeaderRead(f, m', phdr, i)
        {
          CopiedIsRead(f, m, m', s, c, app, tscFreq, i);
        }
      }
    } else {
      var m, m', s, app := LostSomewhere(f, c, kernelBreak, vaddrBreak);
    }
  }

  // ---- An accepted file whose headers are lost ----

  function LateByte(i: nat): byte {
    if i == 0 then 0x7f else if i == 1 then 0x45 else if i == 2 then 0x4c else if i == 3 then 0x46
    else if i == 4 then 2 else if i == 5 || i == 6 then 1
    else if i == 16 then 2 else if i == 18 then 62 else if i == 20 then 1
    else if i == 33 then 0x10                       // e_phoff = 4096
    else if i == 54 then 56 else if i == 56 then 1  // one header of 56 bytes
    else if i == 4096 then 1                        // PT_LOAD
    else if i == 4114 then 0x40                     // p_vaddr = 0x400000
    else if i == 4137 || i == 4145 then 0x10        // p_memsz = p_align = 4096
    else 0
  }

  /** A file whose one program header starts right after its first page. */
  function LateHeader(): (f: seq<byte>)
    ensures |f| == 4152 && forall i | 0 <= i < 4152 :: f[i] == LateByte(i)
  {
    seq(4152, i requires 0 <= i => LateByte(i))
  }

  lemma Le2(s: seq<byte>)
    requires |s| == 2
    ensures Le(s) == s[0] as int + 256 * s[1] as int
  {
    assert LeRec(s[1..]) == s[1] as int + 256 * LeRec(s[1..][1..]);
  }

  lemma Le4(s: seq<byte>)
    requires |s| == 4
    ensures Le(s) == s[0] as int + 256 * s[1] as int + 0x1_0000 * (s[2] as int + 256 * s[3] as int)
  {
    Le2(s[2..]);
    assert LeRec(s[1..]) == s[1] as int + 256 * LeRec(s[1..][1..]);
    assert s[1..][1..] == s[2..];
  }

  lemma Le8(s: seq<byte>)
    requires |s| == 8
    ensures Le(s) == s[0] as int + 256 * s[1] as int + 0x1_0000 * (s[2] as int + 256 * s[3] as int)
                     + 0x1_0000_0000 * Le(s[4..])
  {
    var t := s[2..];
    assert LeRec(s[1..]) == s[1] as int + 256 * LeRec(s[1..][1..]);
    assert LeRec(t) == t[0] as int + 256 * LeRec(t[1..]);
    assert LeRec(t[1..]) == t[1] as int + 256 * LeRec(t[1..][1..]);
    assert s[1..][1..] == t && t[1..][1..] == s[4..];
  }

  /** A field with nothing above its third byte. */
  lemma SmallField(off: nat, n: nat)
    requires (n == 2 || n == 4 || n == 8) && off + n <= 4152
    requires forall k | off + 3 <= k < off + n :: LateByte(k) == 0
    ensures Field(LateHeader(), off, n) ==
              LateByte(off) as int + 256 * LateByte(off + 1) as int
              + (if n > 2 then 0x1_0000 * LateByte(off + 2) as int else 0)
  {
    hide LateByte;
    var f := LateHeader();
    var s := f[off..off + n];
    forall k | 0 <= k < n
      ensures s[k] == LateByte(off + k)
    {
    }
    if n == 2 {
      Le2(s);
    } else if n == 4 {
      Le4(s);
    } else {
      Le8(s);
      Le4(s[4..]);
    }
  }

  lemma LateFields()
    ensures
      var f := LateHeader();
      && IdentOk(f) && EhdrOf(f).phoff == 4096 && EhdrOf(f).phentsize == 56 && EhdrOf(f).phnum == 1
      && PhdrAt(f, 4096) == Phdr(PT_LOAD, 0, LOAD_START, 0, PAGE_SIZE, PAGE_SIZE)
  {
    hide LateHeader, Field;
    SmallField(16, 2);
    SmallField(18, 2);
    SmallField(20, 4);
    SmallField(32, 8);
    SmallField(54, 2);
    SmallField(56, 2);
    LatePhdr();
  }

  lemma LatePhdr()
    ensures PhdrAt(LateHeader(), 4096) == Phdr(PT_LOAD, 0, LOAD_START, 0, PAGE_SIZE, PAGE_SIZE)
  {
    hide LateHeader, Field;
    SmallField(4096, 4);
    SmallField(4104, 8);
    SmallField(4112, 8);
    SmallField(4128, 8);
    SmallField(4136, 8);
    SmallField(4144, 8);
  }

  /** The loader accepts a file whose headers the program will not find. */
  lemma HeadersCanBeLost()
    ensures exists f: seq<byte>, c: Config, vaddrBreak: nat ::
              Accepts(f, c, 0, vaddrBreak) && vaddrBreak <= USER_LIMIT && |f| < 0x1_0000_0000
              && EhdrOf(f).phnum > 0 && !TableCopied(f)
  {
    hide Accepts, TableCopied, IdentOk, EhdrOf, PhdrAt, LateByte;
    var f, c := LateHeader(), Config(8192, 0, 0, 0, 0, 0);
    LateFields();
    LateAccepted(f, c);
    LateLost(f);
    assert Accepts(f, c, 0, 0x50_0000) && !TableCopied(f);
  }

  lemma LateLost(f: seq<byte>)
    requires |f| == 4152 && EhdrOf(f).phoff == 4096 && EhdrOf(f).phnum == 1
    ensures !TableCopied(f)
  {
    hide EhdrOf, WordBytes;
    assert TableEnd(f) == 4152;
  }

  lemma LateAccepted(f: seq<byte>, c: Config)
    requires |f| == 4152 && IdentOk(f)
    requires EhdrOf(f).phoff == 4096 && EhdrOf(f).phentsize == 56 && EhdrOf(f).phnum == 1
    requires PhdrAt(f, 4096) == Phdr(PT_LOAD, 0, LOAD_START, 0, PAGE_SIZE, PAGE_SIZE)
    requires c == Config(8192, 0, 0, 0, 0, 0)
    ensures Accepts(f, c, 0, 0x50_0000)
  {
    hide IdentOk, EhdrOf, PhdrAt;
    assert PhdrOff(f, 0) == 4096;
    assert Inside(f, 0) && Seg(f, 0) == PhdrAt(f, 4096) && IsLoad(f, 0);
    assert MinVaddr(f, 0) == W - 1 && MaxEnd(f, 0) == 0;
    assert MinVaddr(f, 1) == LOAD_START && MaxEnd(f, 1) == LOAD_START + PAGE_SIZE;
  }
}
