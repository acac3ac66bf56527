/**
 What a judge request comes to, said without the judge's own helpers: what the program finds in memory, what the judge
 takes from the record the program leaves, and which request is refused with which error.
 */
module JudgeReports {
  import opened Machine
  import opened Bytes
  import opened Startup
  import opened Abi
  import opened ElfLayout
  import opened ElfLoader
  import opened ElfHeaders
  import opened Judger
  import S = Streams

  // ---- What the program starts with ----

  /** `n` bytes of memory at `a` are the part of the judge buffer that `b` describes. */
  ghost predicate FromBuffer(now: seq<byte>, a: nat, n: nat, was: seq<byte>, p: Place, b: BufferDesc) {
    n == b.len && Found(now, a, n, was, p.buffer + b.off)
  }

  /**
   The program that a request runs finds, by the pointers and sizes of its record, the request's own standard input and
   input buffer, and its output buffer with the old contents unless it is to be cleared; then it finds what was in that
   memory before.
   */
  lemma JudgeLoads(was: seq<byte>, now: seq<byte>, r: JudgeResult, req: Request, program: Program, p: Place,
                   loaded: seq<byte>, app: App)
    requires Completes(was, now, r, req, program, p, loaded, app)
    ensures app.info + 112 <= |loaded| == |was| && WordAt(loaded, app.info) == 40
    ensures FromBuffer(loaded, WordAt(loaded, app.info + 8), WordAt(loaded, app.info + 16), was, p, req.stdin)
    ensures FromBuffer(loaded, WordAt(loaded, app.info + 72), WordAt(loaded, app.info + 80), was, p, req.ib)
    ensures WordAt(loaded, app.info + 96) == req.ob.len
    ensures req.obNeedClear == 0 ==>
              FromBuffer(loaded, WordAt(loaded, app.info + 88), WordAt(loaded, app.info + 96), was, p, req.ob)
    ensures req.obNeedClear != 0 ==>
              Found(loaded, WordAt(loaded, app.info + 88), req.ob.len, was, WordAt(loaded, app.info + 88))
    ensures WordAt(loaded, app.info + 32) == req.stdout.len && WordAt(loaded, app.info + 56) == req.stderr.len
    ensures WordAt(loaded, app.info + 104) == p.tscFreq
  {
    hide Completed, WordAt, Found, Ran, CopiedBack, Room, LayoutFrom, FileOf;
    var s := SourcesOf(req, p.buffer);
    LoadedInfo(FileOf(was, s), was, loaded, s, ConfigOf(req), app, p.tscFreq);
  }

  /** The file is the part of the buffer that the request names, and the program area is the memory limit in pages. */
  lemma JudgeRunsFile(was: seq<byte>, now: seq<byte>, r: JudgeResult, req: Request, program: Program, p: Place,
                      loaded: seq<byte>, app: App)
    requires Completes(was, now, r, req, program, p, loaded, app)
    requires req.elf.len < 0x1_0000_0000 && req.memoryKb * 1024 < W
    ensures
      var at := p.buffer + req.elf.off;
      && at + req.elf.len <= |was|
      && Completed(was[at..at + req.elf.len], was, loaded, SourcesOf(req, p.buffer), ConfigOf(req), app, p.tscFreq)
    ensures 0x40_0000 + req.memoryKb * 1024 <= app.layout.stop < 0x40_0000 + req.memoryKb * 1024 + 4096
  {
    hide Completed, Ran, CopiedBack, Room, LayoutFrom;
    var s := SourcesOf(req, p.buffer);
    HeadersInside(FileOf(was, s), was, loaded, s, ConfigOf(req), app, p.tscFreq);
    MemoryTight(req, app.layout, High(FileOf(was, s)));
  }

  lemma MemoryTight(req: Request, l: Layout, high: nat)
    requires l == LayoutFrom(high, ConfigOf(req)) && req.memoryKb * 1024 < W
    ensures LOAD_START + req.memoryKb * 1024 <= l.stop < LOAD_START + req.memoryKb * 1024 + PAGE_SIZE
  {
    hide Paged;
    PagedFacts(req.memoryKb * 1024);
  }

  // ---- What the judge takes from the program ----

  /** The program leaves the record `i` at `a`. */
  ghost predicate Leaves(run: UserRun, a: nat, i: DuckInfo) {
    Tape(run.left, a, 112) == WordBytes(i.Words())
  }

  /**
   The sizes in the reply are those of the record that the program leaves, at most the request's own limits, and exactly
   so many bytes of its output regions get to the buffer.
   */
  lemma JudgeReadsRecord(was: seq<byte>, now: seq<byte>, r: JudgeResult, req: Request, program: Program, p: Place,
                         loaded: seq<byte>, app: App, i: DuckInfo)
    requires Completes(was, now, r, req, program, p, loaded, app) && BuffersOk(req, p.bufferSize)
    requires Leaves(program(loaded, app), app.info, i)
    ensures r.stdoutSize == Min(req.stdout.len, i.stdoutSize) && r.stderrSize == Min(req.stderr.len, i.stderrSize)
    ensures
      var left := program(loaded, app).left;
      && Carries(now, p.buffer + req.stdout.off, Min(req.stdout.len, i.stdoutSize), left, app.layout.stdout)
      && Carries(now, p.buffer + req.stderr.off, Min(req.stderr.len, i.stderrSize), left, app.layout.stderr)
      && Carries(now, p.buffer + req.ob.off, req.ob.len, left, app.layout.ob)
  {
    hide Ran, CopiedBack, WordBytes, BuffersOk, Carries, Loaded, SourcesOutside, Fits, RecordAt, WordAt,
        DuckInfo.Words;
    var run, l := program(loaded, app), app.layout;
    var m := Ran(was, l, run.left);
    RanInfo(was, l, run, i);
    RecordReads(m, app.info, i);
    SizesRead(m, l, req, i);
    JudgeDelivers(was, now, r, req, program, p, loaded, app);
  }

  lemma RanInfo(was: seq<byte>, l: Layout, run: UserRun, i: DuckInfo)
    requires LOAD_START <= l.special <= |was| && LOAD_START + 112 <= l.stop <= l.special && Leaves(run, l.stop - 112, i)
    ensures Ran(was, l, run.left)[l.stop - 112..l.stop] == WordBytes(i.Words())
  {
    hide Ran, WordBytes, DuckInfo.Words;
    var m, t := Ran(was, l, run.left), Tape(run.left, l.stop - 112, 112);
    RanBytes(was, l, run.left);
    assert m[l.stop - 112..l.stop] == t;
  }

  lemma SizesRead(m: seq<byte>, l: Layout, req: Request, i: DuckInfo)
    requires 112 <= l.stop <= |m| && RecordAt(m, l.stop - 112, i)
    ensures StdoutSize(m, l, req) == Min(req.stdout.len, i.stdoutSize)
    ensures StderrSize(m, l, req) == Min(req.stderr.len, i.stderrSize)
  {
    hide WordAt;
  }

  /** What the user library leaves of the output `out` under a limit: its first bytes, and their number as the size. */
  ghost predicate Wrote(run: UserRun, at: nat, size: u64, out: seq<byte>, limit: u64) {
    size == |S.Take(out, limit)| && Tape(run.left, at, |S.Take(out, limit)|) == S.Take(out, limit)
  }

  /** So a program that wrote through the user library gets the first bytes of its standard output into the buffer. */
  lemma JudgeReturnsOutput(was: seq<byte>, now: seq<byte>, r: JudgeResult, req: Request, program: Program, p: Place,
                           loaded: seq<byte>, app: App, i: DuckInfo, out: seq<byte>)
    requires Completes(was, now, r, req, program, p, loaded, app) && BuffersOk(req, p.bufferSize)
    requires Leaves(program(loaded, app), app.info, i)
    requires Wrote(program(loaded, app), WordAt(loaded, app.info + 24), i.stdoutSize, out,
                   WordAt(loaded, app.info + 32))
    ensures r.stdoutSize == Min(|out|, req.stdout.len)
    ensures
      var at := p.buffer + req.stdout.off;
      at + r.stdoutSize <= |now| && now[at..at + r.stdoutSize] == S.Take(out, req.stdout.len)
  {
    hide Completed, Ran, CopiedBack, BuffersOk, Leaves, WordAt, Found, Room, LayoutFrom, FileOf;
    var s := SourcesOf(req, p.buffer);
    LoadedInfo(FileOf(was, s), was, loaded, s, ConfigOf(req), app, p.tscFreq);
    JudgeReadsRecord(was, now, r, req, program, p, loaded, app, i);
    CarriedTape(now, p.buffer + req.stdout.off, r.stdoutSize, program(loaded, app).left, app.layout.stdout);
  }

  lemma CarriedTape(now: seq<byte>, at: nat, n: nat, left: nat -> byte, from: nat)
    requires Carries(now, at, n, left, from)
    ensures at + n <= |now| && now[at..at + n] == Tape(left, from, n)
  {
    var t := Tape(left, from, n);
    forall k | 0 <= k < n
      ensures now[at..at + n][k] == t[k]
    {
      var a := at + k;
      assert now[a] == left(from + (a - at));
    }
  }

  // ---- Which request is refused with which error ----

  predicate Within(b: BufferDesc, size: u64) {
    b.off < size && b.off + b.len <= size
  }

  /** The six descriptors by name: all inside the buffer and no two overlapping. */
  predicate SixApart(req: Request, size: u64) {
    && Within(req.elf, size) && Within(req.stdin, size) && Within(req.stdout, size)
    && Within(req.stderr, size) && Within(req.ib, size) && Within(req.ob, size)
    && Disjoint(req.elf, req.stdin) && Disjoint(req.elf, req.stdout) && Disjoint(req.elf, req.stderr)
    && Disjoint(req.elf, req.ib) && Disjoint(req.elf, req.ob)
    && Disjoint(req.stdin, req.stdout) && Disjoint(req.stdin, req.stderr)
    && Disjoint(req.stdin, req.ib) && Disjoint(req.stdin, req.ob)
    && Disjoint(req.stdout, req.stderr) && Disjoint(req.stdout, req.ib) && Disjoint(req.stdout, req.ob)
    && Disjoint(req.stderr, req.ib) && Disjoint(req.stderr, req.ob)
    && Disjoint(req.ib, req.ob)
  }

  lemma SixDescs(req: Request, size: u64)
    ensures BuffersOk(req, size) <==> SixApart(req, size)
  {
    hide ValidBuffer, Within, Disjoint;
    var d := Descs(req);
    forall i | 0 <= i < 6
      ensures ValidBuffer(d[i], size) <==> Within(d[i], size)
    {
      ValidWithin(d[i], size);
    }
    forall i, j | 0 <= i < 6 && 0 <= j < 6
      ensures Disjoint(d[i], d[j]) <==> Disjoint(d[j], d[i])
    {
      DisjointBack(d[i], d[j]);
    }
    SixNamed(req, size);
  }

  lemma ValidWithin(b: BufferDesc, size: u64)
    ensures ValidBuffer(b, size) <==> Within(b, size)
  {
  }

  lemma SixNamed(req: Request, size: u64)
    requires forall i | 0 <= i < 6 :: ValidBuffer(Descs(req)[i], size) <==> Within(Descs(req)[i], size)
    requires forall i, j | 0 <= i < 6 && 0 <= j < 6 ::
               Disjoint(Descs(req)[i], Descs(req)[j]) <==> Disjoint(Descs(req)[j], Descs(req)[i])
    ensures BuffersOk(req, size) <==> SixApart(req, size)
  {
    hide ValidBuffer, Within, Disjoint;
    var d := Descs(req);
    if BuffersOk(req, size) {
      assert ValidBuffer(d[0], size) && ValidBuffer(d[1], size) && ValidBuffer(d[2], size);
      assert ValidBuffer(d[3], size) && ValidBuffer(d[4], size) && ValidBuffer(d[5], size);
      assert Disjoint(d[1], d[0]) && Disjoint(d[2], d[0]) && Disjoint(d[3], d[0]) && Disjoint(d[4], d[0]);
      assert Disjoint(d[5], d[0]) && Disjoint(d[2], d[1]) && Disjoint(d[3], d[1]) && Disjoint(d[4], d[1]);
      assert Disjoint(d[5], d[1]) && Disjoint(d[3], d[2]) && Disjoint(d[4], d[2]) && Disjoint(d[5], d[2]);
      assert Disjoint(d[4], d[3]) && Disjoint(d[5], d[3]) && Disjoint(d[5], d[4]);
    }
  }

  lemma DisjointBack(a: BufferDesc, b: BufferDesc)
    ensures Disjoint(a, b) <==> Disjoint(b, a)
  {
  }

  /** The first check that fails decides the error; a request that fails none runs exactly if its file is accepted. */
  lemma FreshErrors(was: seq<byte>, now: seq<byte>, prev: JudgeResult, r: JudgeResult, req: Request, program: Program,
                    p: Place)
    requires FreshReply(was, now, prev, r, req, program, p) && PlaceOk(p, |was|)
    ensures
      var wellAsked := (req.memoryKb * 1024) % W >= req.memoryKb && SixApart(req, p.bufferSize);
      var timed := 1 <= req.timeLimitNs <= 500_000_000_000;
      var at := p.buffer + req.elf.off;
      && (r.error == InvalidTimeLimit <==> wellAsked && !timed)
      && (r.error == NoError <==>
            && wellAsked && timed && at + req.elf.len <= |was|
            && Accepts(was[at..at + req.elf.len], ConfigOf(req), p.kernelBreak, p.vaddrBreak))
      && (r.error == CantLoadElf <==> r.error != InvalidTimeLimit && r.error != NoError)
      && (r.error != NoError ==> now == was && r == prev.(error := r.error))
  {
    hide Accepts, Completed, SixApart, BuffersOk, Ran, CopiedBack, Room;
    SixDescs(req, p.bufferSize);
    if Refusal(req, p) == NoError {
      SourcesFit(req, p, |was|);
      ElfInside(req, p, |was|);
    }
  }

  lemma ElfInside(req: Request, p: Place, size: nat)
    requires BuffersOk(req, p.bufferSize) && PlaceOk(p, size)
    ensures p.buffer + req.elf.off + req.elf.len <= size
  {
    assert ValidBuffer(Descs(req)[0], p.bufferSize);
  }
}
