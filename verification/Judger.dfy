/** The judge: one buffer, one current result, and requests that load and run a program beside them. */
module Judger {
  import opened Machine
  import opened Bytes
  import opened ElfFile
  import opened ElfLayout
  import opened ElfLoader
  import Startup

  const MAX_TIME_LIMIT_NS: int := 500_000_000_000
  const MAX_BUFFER_SIZE: int := 0xC000_0000      // 3072 MiB
  const TRAP_SYSCALL: int := 255
  const TRAP_TIMER: int := 32
  const MEMORY_KB: int := 932                    // 233 pages, a placeholder in the source

  datatype BufferDesc = BufferDesc(off: u64, len: u64)

  datatype Request = Request(
    seqNum: u64, timeLimitNs: u64, memoryKb: u64,
    elf: BufferDesc, stdin: BufferDesc, stdout: BufferDesc, stderr: BufferDesc, ib: BufferDesc, ob: BufferDesc,
    obNeedClear: u64)

  datatype Error = NoError | NotJudged | CantLoadElf | InvalidTimeLimit

  /** Counter readings that the judge passes on without looking at them. */
  datatype Counters = Counters(countInst: u64, clkThread: u64, clkRefTsc: u64, timeNsRefTsc: u64, timeNsReal: u64,
      timeTsc: u64)

  datatype JudgeResult = JudgeResult(
    error: Error, counters: Counters, timeNs: u64, memoryKb: u64, stdoutSize: u64, stderrSize: u64,
    returnCode: int, trapNum: nat, isRE: bool, isTLE: bool)

  const NOT_JUDGED: JudgeResult := JudgeResult(NotJudged, Counters(0, 0, 0, 0, 0, 0), 0, 0, 0, 0, 0, 0, false, false)

  /** An arbitrary user run: what it leaves at each address of its own region, and how it ended. */
  datatype UserRun = UserRun(left: nat -> byte, counters: Counters, timeNs: u64, returnCode: int, trapNum: nat)

  /** How a program runs, given the memory and the registers it starts with. */
  type Program = (seq<byte>, App) -> UserRun

  /** Where the judge lives: programs below `vaddrBreak`, its buffer above. */
  datatype Place = Place(kernelBreak: u64, vaddrBreak: u64, buffer: nat, bufferSize: u64, tscFreq: u64)

  predicate PlaceOk(p: Place, size: nat) {
    && p.vaddrBreak <= USER_LIMIT && p.vaddrBreak <= p.buffer && p.buffer + p.bufferSize <= size
    && p.bufferSize <= MAX_BUFFER_SIZE
  }

  // ---- Buffer checks ----

  predicate ValidBuffer(b: BufferDesc, size: u64) {
    b.off < size && b.len <= size - b.off
  }

  /** check_overlap: the sums wrap. */
  predicate Overlap64(b: BufferDesc, c: BufferDesc) {
    !(Wrap(b.off + b.len) <= c.off || Wrap(c.off + c.len) <= b.off)
  }

  predicate Disjoint(b: BufferDesc, c: BufferDesc) {
    b.off + b.len <= c.off || c.off + c.len <= b.off
  }

  /** check_buffers: true exactly when all are inside the buffer and no two overlap. */
  method CheckBuffers(bs: seq<BufferDesc>, size: u64) returns (ok: bool)
    requires size <= MAX_BUFFER_SIZE
    ensures ok <==> (forall i | 0 <= i < |bs| :: ValidBuffer(bs[i], size))
                    && (forall i, j | 0 <= j < i < |bs| :: Disjoint(bs[i], bs[j]))
  {
    for i := 0 to |bs|
      invariant forall k | 0 <= k < i :: ValidBuffer(bs[k], size)
      invariant forall k, j | 0 <= j < k < i :: Disjoint(bs[k], bs[j])
    {
      if !ValidBuffer(bs[i], size) {
        return false;
      }
      for j := 0 to i
        invariant forall k | 0 <= k < j :: Disjoint(bs[i], bs[k])
      {
        assert ValidBuffer(bs[j], size);
        if Overlap64(bs[i], bs[j]) {
          assert !Disjoint(bs[i], bs[j]);
          return false;
        }
      }
    }
    return true;
  }

  // ---- The overflow guard on the memory limit ----

  /** The guard before the multiplication's result is used. */
  predicate KbGuardPasses(kb: u64) {
    Wrap(kb * 1024) >= kb
  }

  /** The guard lets some wrapped products through, but only products too large for any layout. */
  lemma GuardRescued(kb: u64)
    requires KbGuardPasses(kb)
    ensures kb * 1024 < W || Wrap(kb * 1024) >= 0x40_0000_0000_0000
  {
  }

  lemma GuardIsIncomplete()
    ensures exists kb: u64 :: KbGuardPasses(kb) && kb * 1024 >= W
  {
    var kb: u64 := 0x7f_ffff_ffff_ffff;
    assert KbGuardPasses(kb) && kb * 1024 >= W;
  }

  // ---- History ----

  datatype Event = Judged(seqNum: u64, reply: JudgeResult) | Changed

  /** The last reply, unless the buffer was changed since. */
  ghost function LastReply(h: seq<Event>): Option<Event> {
    if h == [] || h[|h| - 1].Changed? then None else Some(h[|h| - 1])
  }

  /** The sequence number names the last reply, and the buffer was not changed since. */
  ghost predicate Repeats(h: seq<Event>, seqNum: u64) {
    LastReply(h).Some? && LastReply(h).value.seqNum == seqNum
  }

  /** What makes judge answer from its stored result: a repetition, or the number 2^64 - 1 when there is no reply. */
  ghost predicate Replays(h: seq<Event>, seqNum: u64) {
    match LastReply(h)
    case Some(e) => seqNum == e.seqNum
    case None => seqNum == W - 1
  }

  /** Exactly these requests are answered without being judged although they repeat nothing. */
  lemma ReplaysBeyondRepeats(h: seq<Event>, seqNum: u64)
    ensures Repeats(h, seqNum) ==> Replays(h, seqNum)
    ensures Replays(h, seqNum) && !Repeats(h, seqNum) <==> LastReply(h).None? && seqNum == W - 1
  {
  }

  /** One of them: number 2^64 - 1 right after a buffer change. */
  lemma RequestLost()
    ensures exists h: seq<Event>, seqNum: u64 :: Replays(h, seqNum) && !Repeats(h, seqNum)
  {
    var h, seqNum: u64 := [Changed], W - 1;
    assert Replays(h, seqNum) && !Repeats(h, seqNum);
  }

  ghost function Sum(ts: seq<nat>): nat {
    if ts == [] then 0 else Sum(ts[..|ts| - 1]) + ts[|ts| - 1]
  }

  predicate Coherent(r: JudgeResult) {
    !(r.isRE && r.isTLE) && r.timeNs <= MAX_TIME_LIMIT_NS
  }

  /** What a replay answers. */
  ghost function Stored(h: seq<Event>): JudgeResult {
    match LastReply(h)
    case Some(e) => e.reply
    case None => NOT_JUDGED
  }

  /** Reply number `i` is coherent, and is the stored result whenever it was a replay. */
  ghost predicate ReplyOk(h: seq<Event>, i: nat)
    requires i < |h|
  {
    h[i].Judged? ==> Coherent(h[i].reply) && (Replays(h[..i], h[i].seqNum) ==> h[i].reply == Stored(h[..i]))
  }

  ghost predicate Consistent(h: seq<Event>) {
    forall i | 0 <= i < |h| :: ReplyOk(h, i)
  }

  lemma ConsistentMore(h: seq<Event>, e: Event)
    requires Consistent(h)
    requires e.Judged? ==> Coherent(e.reply) && (Replays(h, e.seqNum) ==> e.reply == Stored(h))
    ensures Consistent(h + [e])
  {
    hide Replays, Stored, Coherent;
    var h' := h + [e];
    forall i | 0 <= i < |h'|
      ensures ReplyOk(h', i)
    {
      assert h'[..i] == h[..i];
      assert i < |h| ==> ReplyOk(h, i);
      assert h[..|h|] == h;
    }
  }

  /** Over any run: asked again for the same number with no change in between, the judge says the same. */
  lemma RepeatedReply(h: seq<Event>, i: nat)
    requires Consistent(h) && 0 < i < |h| && h[i].Judged? && h[i - 1].Judged? && h[i].seqNum == h[i - 1].seqNum
    ensures h[i].reply == h[i - 1].reply
  {
    assert ReplyOk(h, i);
    assert LastReply(h[..i]) == Some(h[i - 1]);
  }

  /** The stored sequence number and result are those of the last reply, or the cleared ones. */
  ghost predicate Recorded(h: seq<Event>, judgeSeq: u64, result: JudgeResult, cleared: bool) {
    && Coherent(result) && Consistent(h)
    && (cleared ==> judgeSeq == W - 1 && result == NOT_JUDGED)
    && (match LastReply(h)
        case Some(e) => judgeSeq == e.seqNum && result == e.reply
        case None => judgeSeq == W - 1 && result == NOT_JUDGED)
  }

  /** The statistics count judged requests and add up the times of the completed ones. */
  ghost predicate Counted(nJudges: u64, judged: nat, totalTimeNs: u64, times: seq<nat>) {
    && nJudges == Wrap(judged) && |times| <= judged
    && totalTimeNs == Wrap(Sum(times)) && Sum(times) <= |times| * MAX_TIME_LIMIT_NS
  }

  lemma RecordReply(h: seq<Event>, seqNum: u64, r: JudgeResult)
    requires Coherent(r) && Consistent(h) && !Replays(h, seqNum)
    ensures Recorded(h + [Judged(seqNum, r)], seqNum, r, false)
  {
    hide Consistent, Replays;
    ConsistentMore(h, Judged(seqNum, r));
  }

  /** A replay is recorded like any other reply. */
  lemma RecordReplay(h: seq<Event>, judgeSeq: u64, result: JudgeResult, cleared: bool)
    requires Recorded(h, judgeSeq, result, cleared)
    ensures Recorded(h + [Judged(judgeSeq, result)], judgeSeq, result, cleared)
    ensures Consistent(h) && Coherent(result) && forall seqNum: u64 :: Replays(h, seqNum) <==> seqNum == judgeSeq
  {
    hide Consistent;
    ConsistentMore(h, Judged(judgeSeq, result));
  }

  lemma RecordChange(h: seq<Event>, judgeSeq: u64, result: JudgeResult, cleared: bool)
    requires Recorded(h, judgeSeq, result, cleared)
    ensures Recorded(h + [Changed], W - 1, NOT_JUDGED, true)
    ensures cleared ==> judgeSeq == W - 1 && result == NOT_JUDGED
  {
    hide Consistent;
    ConsistentMore(h, Changed);
  }

  lemma CountOne(nJudges: u64, judged: nat, totalTimeNs: u64, times: seq<nat>)
    requires Counted(nJudges, judged, totalTimeNs, times)
    ensures Counted(Wrap(nJudges + 1), judged + 1, totalTimeNs, times) && |times| < judged + 1
  {
  }

  lemma CountTime(nJudges: u64, judged: nat, totalTimeNs: u64, times: seq<nat>, t: nat)
    requires Counted(nJudges, judged, totalTimeNs, times) && |times| < judged && t <= MAX_TIME_LIMIT_NS
    ensures Counted(nJudges, judged, Wrap(totalTimeNs + t), times + [t])
  {
    hide Sum;
    SumMore(times, t);
  }

  lemma SumMore(ts: seq<nat>, t: nat)
    requires t <= MAX_TIME_LIMIT_NS && Sum(ts) <= |ts| * MAX_TIME_LIMIT_NS
    ensures Wrap(Wrap(Sum(ts)) + t) == Wrap(Sum(ts + [t]))
    ensures Sum(ts + [t]) <= |ts + [t]| * MAX_TIME_LIMIT_NS
  {
    hide Wrap;
    assert (ts + [t])[..|ts|] == ts;
    WrapAdd(Sum(ts), t);
  }

  function ConfigOf(req: Request): Config {
    Config(Wrap(req.memoryKb * 1024), req.stdin.len, req.stdout.len, req.stderr.len, req.ib.len, req.ob.len)
  }

  function SourcesOf(req: Request, buffer: nat): Sources {
    Sources(buffer + req.elf.off, req.elf.len % 0x1_0000_0000, buffer + req.stdin.off, buffer + req.ib.off,
            buffer + req.ob.off, req.obNeedClear != 0)
  }

  function Descs(req: Request): seq<BufferDesc> {
    [req.elf, req.stdin, req.stdout, req.stderr, req.ib, req.ob]
  }

  ghost predicate BuffersOk(req: Request, size: u64) {
    && (forall i | 0 <= i < 6 :: ValidBuffer(Descs(req)[i], size))
    && (forall i, j | 0 <= j < i < 6 :: Disjoint(Descs(req)[i], Descs(req)[j]))
  }

  /** Verdict flags and reported time: a timer trap or an overrun is TLE at exactly the limit, any other trap but the
      exit call is RE. */
  function Verdict(req: Request, run: UserRun, stdoutSize: u64, stderrSize: u64): (r: JudgeResult)
    ensures !(r.isRE && r.isTLE) && r.timeNs <= req.timeLimitNs
    ensures r.isTLE <==> run.timeNs > req.timeLimitNs || run.trapNum == TRAP_TIMER
    ensures r.isRE <==> !r.isTLE && run.trapNum != TRAP_SYSCALL
    ensures r.timeNs == if r.isTLE then req.timeLimitNs else run.timeNs
    ensures r.error == NoError && r.returnCode == run.returnCode && r.trapNum == run.trapNum
    ensures r.counters == run.counters && r.stdoutSize == stdoutSize && r.stderrSize == stderrSize
  {
    var late := run.timeNs > req.timeLimitNs || run.trapNum == TRAP_TIMER;
    JudgeResult(NoError, run.counters, if late then req.timeLimitNs else run.timeNs, MEMORY_KB, stdoutSize, stderrSize,
                run.returnCode, run.trapNum, !late && run.trapNum != TRAP_SYSCALL, late)
  }

  // ---- Memory after a judge ----

  function Tape(left: nat -> byte, lo: nat, n: nat): (t: seq<byte>)
    ensures |t| == n && forall i | 0 <= i < n :: t[i] == left(lo + i)
  {
    seq(n, i requires 0 <= i < n => left(lo + i))
  }

  /** The user region holds whatever the program left there; loading touched nothing else. */
  function Ran(was: seq<byte>, l: Layout, left: nat -> byte): (m: seq<byte>)
    requires LOAD_START <= l.special <= |was|
    ensures |m| == |was|
  {
    Put(was, LOAD_START, Tape(left, LOAD_START, l.special - LOAD_START))
  }

  /** A layout below the break, and valid output ranges in the buffer above it. */
  predicate Room(l: Layout, req: Request, size: nat, p: Place) {
    && Ordered(ConfigOf(req), l) && l.special <= p.vaddrBreak && PlaceOk(p, size)
    && ValidBuffer(req.stdout, p.bufferSize) && ValidBuffer(req.stderr, p.bufferSize)
    && ValidBuffer(req.ob, p.bufferSize)
  }

  /** Sizes are read from the program's own memory, so they are clamped by the limits the judge set. */
  function OutSize(m: seq<byte>, l: Layout, field: nat, limit: u64): (n: u64)
    requires l.stop >= 112 && l.stop <= |m| && field + 8 <= 112
    ensures n <= limit
  {
    Min(limit, WordAt(m, l.stop - 112 + field))
  }

  function StdoutSize(m: seq<byte>, l: Layout, req: Request): (n: u64)
    requires l.stop >= 112 && l.stop <= |m|
    ensures n <= req.stdout.len
  {
    OutSize(m, l, 40, req.stdout.len)
  }

  function StderrSize(m: seq<byte>, l: Layout, req: Request): (n: u64)
    requires l.stop >= 112 && l.stop <= |m|
    ensures n <= req.stderr.len
  {
    OutSize(m, l, 64, req.stderr.len)
  }

  /** `len` bytes to copy from `src` to `dst`. */
  datatype Range = Range(dst: nat, src: nat, len: nat)

  predicate Apart(x: Range, y: Range) {
    x.dst + x.len <= y.dst || y.dst + y.len <= x.dst
  }

  /** Three copies one after another, all of bytes of `m`. */
  function CopiedThree(m: seq<byte>, x: Range, y: Range, z: Range): (now: seq<byte>)
    requires x.src + x.len <= |m| && y.src + y.len <= |m| && z.src + z.len <= |m|
    requires x.dst + x.len <= |m| && y.dst + y.len <= |m| && z.dst + z.len <= |m|
    ensures |now| == |m|
  {
    Put(Put(Put(m, x.dst, m[x.src..x.src + x.len]), y.dst, m[y.src..y.src + y.len]), z.dst, m[z.src..z.src + z.len])
  }

  function StdoutRange(m: seq<byte>, l: Layout, req: Request, p: Place): Range
    requires l.stop >= 112 && l.stop <= |m|
  {
    Range(p.buffer + req.stdout.off, l.stdout, StdoutSize(m, l, req))
  }

  function StderrRange(m: seq<byte>, l: Layout, req: Request, p: Place): Range
    requires l.stop >= 112 && l.stop <= |m|
  {
    Range(p.buffer + req.stderr.off, l.stderr, StderrSize(m, l, req))
  }

  function ObRange(l: Layout, req: Request, p: Place): Range {
    Range(p.buffer + req.ob.off, l.ob, req.ob.len)
  }

  /** Copy-back: stdout and stderr by their clamped sizes, the output buffer whole. */
  function CopiedBack(m: seq<byte>, l: Layout, req: Request, p: Place): (m': seq<byte>)
    requires Room(l, req, |m|, p)
    ensures |m'| == |m|
  {
    CopiedThree(m, StdoutRange(m, l, req, p), StderrRange(m, l, req, p), ObRange(l, req, p))
  }

  /** A byte of memory that a judge may change. */
  predicate Touchable(a: nat, l: Layout, req: Request, p: Place, stdoutSize: nat, stderrSize: nat) {
    || LOAD_START <= a < l.special
    || p.buffer + req.stdout.off <= a < p.buffer + req.stdout.off + stdoutSize
    || p.buffer + req.stderr.off <= a < p.buffer + req.stderr.off + stderrSize
    || p.buffer + req.ob.off <= a < p.buffer + req.ob.off + req.ob.len
  }

  /** A judge changes only its user region and the three output ranges of the buffer, clamped sizes and all. */
  lemma JudgeConfined(was: seq<byte>, l: Layout, req: Request, run: UserRun, p: Place, a: nat)
    requires Room(l, req, |was|, p) && a < |was|
    ensures
      var m := Ran(was, l, run.left);
      CopiedBack(m, l, req, p)[a] != was[a] ==>
        Touchable(a, l, req, p, StdoutSize(m, l, req), StderrSize(m, l, req))
  {
    hide Put, StdoutSize, StderrSize, Room;
    RoomFacts(l, req, |was|, p);
    var m := Ran(was, l, run.left);
    var so, se := StdoutSize(m, l, req), StderrSize(m, l, req);
    var m1 := Put(m, p.buffer + req.stdout.off, m[l.stdout..l.stdout + so]);
    var m2 := Put(m1, p.buffer + req.stderr.off, m[l.stderr..l.stderr + se]);
    PutByte(was, LOAD_START, Tape(run.left, LOAD_START, l.special - LOAD_START), a);
    PutByte(m, p.buffer + req.stdout.off, m[l.stdout..l.stdout + so], a);
    PutByte(m1, p.buffer + req.stderr.off, m[l.stderr..l.stderr + se], a);
    PutByte(m2, p.buffer + req.ob.off, m[l.ob..l.ob + req.ob.len], a);
  }

  /** `now` holds, `n` bytes from `at` on, what `m` holds from `from` on. */
  predicate Copied(now: seq<byte>, at: nat, m: seq<byte>, from: nat, n: nat) {
    at + n <= |now| && from + n <= |m| && now[at..at + n] == m[from..from + n]
  }

  /** Three copies of slices of `m` to places apart from each other are all there afterwards. */
  lemma ThreeCopies(m: seq<byte>, x: Range, y: Range, z: Range)
    requires x.src + x.len <= |m| && y.src + y.len <= |m| && z.src + z.len <= |m|
    requires x.dst + x.len <= |m| && y.dst + y.len <= |m| && z.dst + z.len <= |m|
    requires Apart(x, y) && Apart(x, z) && Apart(y, z)
    ensures
      var now := CopiedThree(m, x, y, z);
      Copied(now, x.dst, m, x.src, x.len) && Copied(now, y.dst, m, y.src, y.len) && Copied(now, z.dst, m, z.src, z.len)
  {
    hide Put, Copied, Apart;
    var dx, dy, dz := m[x.src..x.src + x.len], m[y.src..y.src + y.len], m[z.src..z.src + z.len];
    var m1 := Put(m, x.dst, dx);
    var m2 := Put(m1, y.dst, dy);
    CopyThere(m, x, m, dx);
    CopyStays(m1, x, y, m, dy);
    CopyStays(m2, x, z, m, dz);
    CopyThere(m1, y, m, dy);
    CopyStays(m2, y, z, m, dz);
    CopyThere(m2, z, m, dz);
  }

  /** A copy is there once it was made. */
  lemma CopyThere(s: seq<byte>, x: Range, m: seq<byte>, data: seq<byte>)
    requires x.src + x.len <= |m| && x.dst + x.len <= |s| && data == m[x.src..x.src + x.len]
    ensures Copied(Put(s, x.dst, data), x.dst, m, x.src, x.len)
  {
    hide Put;
    PutReads(s, x.dst, data);
  }

  /** It stays when the next one goes elsewhere. */
  lemma CopyStays(s: seq<byte>, x: Range, y: Range, m: seq<byte>, data: seq<byte>)
    requires Copied(s, x.dst, m, x.src, x.len) && y.dst + y.len <= |s| && |data| == y.len && Apart(x, y)
    ensures Copied(Put(s, y.dst, data), x.dst, m, x.src, x.len)
  {
    hide Put;
    PutElsewhere(s, y.dst, data, x.dst, x.dst + x.len);
  }

  /** What a layout with room gives the copies. */
  lemma RoomFacts(l: Layout, req: Request, size: nat, p: Place)
    requires Room(l, req, size, p)
    ensures LOAD_START <= l.special <= p.buffer && 112 <= l.stop <= l.special && p.buffer + p.bufferSize <= size
    ensures LOAD_START <= l.stdout && l.stdout + req.stdout.len <= l.special
    ensures LOAD_START <= l.stderr && l.stderr + req.stderr.len <= l.special
    ensures LOAD_START <= l.ob && l.ob + req.ob.len <= l.special
    ensures req.stdout.off + req.stdout.len <= p.bufferSize && req.stderr.off + req.stderr.len <= p.bufferSize
    ensures req.ob.off + req.ob.len <= p.bufferSize
  {
  }

  /** `now` carries, `n` bytes from `at` on, what the program left from `from` on. */
  ghost predicate Carries(now: seq<byte>, at: nat, n: nat, left: nat -> byte, from: nat) {
    at + n <= |now| && forall a | at <= a < at + n :: now[a] == left(from + (a - at))
  }

  /** In [LOAD_START, hi) memory is what the program left. */
  ghost predicate LeftBy(m: seq<byte>, left: nat -> byte, hi: nat) {
    hi <= |m| && forall a | LOAD_START <= a < hi :: m[a] == left(a)
  }

  lemma CarriesCopied(now: seq<byte>, at: nat, n: nat, m: seq<byte>, from: nat, left: nat -> byte, hi: nat)
    requires Copied(now, at, m, from, n) && LOAD_START <= from && from + n <= hi && LeftBy(m, left, hi)
    ensures Carries(now, at, n, left, from)
  {
    forall a | at <= a < at + n
      ensures now[a] == left(from + (a - at))
    {
      assert now[a] == now[at..at + n][a - at] && m[from + (a - at)] == m[from..from + n][a - at];
    }
  }

  lemma RanBytes(was: seq<byte>, l: Layout, left: nat -> byte)
    requires LOAD_START <= l.special <= |was|
    ensures LeftBy(Ran(was, l, left), left, l.special)
  {
    hide Put;
    forall a | LOAD_START <= a < l.special
      ensures Ran(was, l, left)[a] == left(a)
    {
      PutByte(was, LOAD_START, Tape(left, LOAD_START, l.special - LOAD_START), a);
    }
  }

  /** Disjoint descriptors keep the three ranges of a copy-back apart. */
  lemma RangesApart(m: seq<byte>, l: Layout, req: Request, p: Place)
    requires l.stop >= 112 && l.stop <= |m|
    requires Disjoint(req.stderr, req.stdout) && Disjoint(req.ob, req.stdout) && Disjoint(req.ob, req.stderr)
    ensures
      var x, y, z := StdoutRange(m, l, req, p), StderrRange(m, l, req, p), ObRange(l, req, p);
      Apart(x, y) && Apart(x, z) && Apart(y, z)
  {
    hide StdoutSize, StderrSize;
  }

  /** Copy-back of what the program left in its stdout, stderr and output regions. */
  lemma RunDelivers(was: seq<byte>, l: Layout, req: Request, run: UserRun, p: Place, m: seq<byte>, now: seq<byte>)
    requires Room(l, req, |was|, p) && l.special <= |was|
    requires m == Ran(was, l, run.left) && now == CopiedBack(m, l, req, p)
    requires Disjoint(req.stderr, req.stdout) && Disjoint(req.ob, req.stdout) && Disjoint(req.ob, req.stderr)
    ensures 112 <= l.stop <= |m|
    ensures Carries(now, p.buffer + req.stdout.off, StdoutSize(m, l, req), run.left, l.stdout)
    ensures Carries(now, p.buffer + req.stderr.off, StderrSize(m, l, req), run.left, l.stderr)
    ensures Carries(now, p.buffer + req.ob.off, req.ob.len, run.left, l.ob)
  {
    hide StdoutSize, StderrSize, Ran, Carries, LeftBy, Room, CopiedThree, Copied, Disjoint, Apart;
    RoomFacts(l, req, |was|, p);
    RanBytes(was, l, run.left);
    RangesApart(m, l, req, p);
    var x, y, z := StdoutRange(m, l, req, p), StderrRange(m, l, req, p), ObRange(l, req, p);
    ThreeCopies(m, x, y, z);
    CarriesCopied(now, x.dst, x.len, m, x.src, run.left, l.special);
    CarriesCopied(now, y.dst, y.len, m, y.src, run.left, l.special);
    CarriesCopied(now, z.dst, z.len, m, z.src, run.left, l.special);
  }

  // ---- The judge ----

  /**
   A completed judge: the file was loaded, the program started from the loaded memory, and what it left was copied back.
   Loading wrote only where the run may write, so memory is described from what it was before.
   */
  ghost predicate Completes(was: seq<byte>, now: seq<byte>, r: JudgeResult, req: Request, program: Program, p: Place,
                            loaded: seq<byte>, app: App)
  {
    var s, c, l := SourcesOf(req, p.buffer), ConfigOf(req), app.layout;
    && s.elf + s.elfLen <= |was|
    && Completed(FileOf(was, s), was, loaded, s, c, app, p.tscFreq) && l == LayoutFrom(High(FileOf(was, s)), c)
    && Room(l, req, |was|, p)
    && (var run := program(loaded, app);
        var m := Ran(was, l, run.left);
        && now == CopiedBack(m, l, req, p)
        && r == Verdict(req, run, StdoutSize(m, l, req), StderrSize(m, l, req)))
  }

  /** Why a request is refused before its file is looked at. */
  ghost function Refusal(req: Request, p: Place): Error {
    if !KbGuardPasses(req.memoryKb) || !BuffersOk(req, p.bufferSize) then CantLoadElf
    else if req.timeLimitNs == 0 || req.timeLimitNs > MAX_TIME_LIMIT_NS then InvalidTimeLimit
    else NoError
  }

  /** What happens to a request that is not refused: its file is, or it runs to a verdict. */
  ghost predicate LoadReply(was: seq<byte>, now: seq<byte>, prev: JudgeResult, r: JudgeResult, req: Request,
                            program: Program, p: Place)
  {
    var s := SourcesOf(req, p.buffer);
    if s.elf + s.elfLen <= |was| && Accepts(FileOf(was, s), ConfigOf(req), p.kernelBreak, p.vaddrBreak) then
      exists loaded: seq<byte>, app: App :: Completes(was, now, r, req, program, p, loaded, app)
    else
      now == was && r == prev.(error := CantLoadElf)
  }

  /** What a fresh request does: refused with an error and nothing changed in memory, or run to a verdict. */
  ghost predicate FreshReply(was: seq<byte>, now: seq<byte>, prev: JudgeResult, r: JudgeResult, req: Request,
                             program: Program, p: Place)
  {
    if Refusal(req, p) != NoError then now == was && r == prev.(error := Refusal(req, p))
    else LoadReply(was, now, prev, r, req, program, p)
  }

  /** A fresh request changes a byte only in the program's own region or in the clamped output ranges of the buffer. */
  lemma FreshConfined(was: seq<byte>, now: seq<byte>, prev: JudgeResult, r: JudgeResult, req: Request,
                      program: Program, p: Place, a: nat)
    requires FreshReply(was, now, prev, r, req, program, p)
    requires a < |was| == |now| && now[a] != was[a]
    ensures r.error == NoError && r.stdoutSize <= req.stdout.len && r.stderrSize <= req.stderr.len
    ensures exists l: Layout ::
              Room(l, req, |was|, p) && Touchable(a, l, req, p, r.stdoutSize, r.stderrSize)
  {
    hide Ran, CopiedBack, Completed, Accepts, OutSize, BuffersOk, KbGuardPasses;
    var loaded: seq<byte>, app: App :| Completes(was, now, r, req, program, p, loaded, app);
    JudgeConfined(was, app.layout, req, program(loaded, app), p, a);
  }

  /** After a completed judge the buffer holds what the program, run from the loaded memory, left in its regions. */
  lemma JudgeDelivers(was: seq<byte>, now: seq<byte>, r: JudgeResult, req: Request, program: Program, p: Place,
                      loaded: seq<byte>, app: App)
    requires Completes(was, now, r, req, program, p, loaded, app) && BuffersOk(req, p.bufferSize)
    ensures r.stdoutSize <= req.stdout.len && r.stderrSize <= req.stderr.len
    ensures
      var left, l := program(loaded, app).left, app.layout;
      && Carries(now, p.buffer + req.stdout.off, r.stdoutSize, left, l.stdout)
      && Carries(now, p.buffer + req.stderr.off, r.stderrSize, left, l.stderr)
      && Carries(now, p.buffer + req.ob.off, req.ob.len, left, l.ob)
  {
    hide Ran, CopiedBack, Completed, OutSize, Carries;
    assert Disjoint(Descs(req)[3], Descs(req)[2]) && Disjoint(Descs(req)[5], Descs(req)[2]);
    assert Disjoint(Descs(req)[5], Descs(req)[3]);
    var run := program(loaded, app);
    RunDelivers(was, app.layout, req, run, p, Ran(was, app.layout, run.left), now);
  }

  /** Outside the program area and the judge's own buffer nothing has changed. */
  ghost predicate Confined(was: seq<byte>, now: seq<byte>, p: Place) {
    && |was| == |now|
    && forall a | 0 <= a < |was| && !(LOAD_START <= a < p.vaddrBreak) && !(p.buffer <= a < p.buffer + p.bufferSize) ::
         now[a] == was[a]
  }

  lemma FreshKeepsOutside(was: seq<byte>, now: seq<byte>, prev: JudgeResult, r: JudgeResult, req: Request,
                          program: Program, p: Place)
    requires FreshReply(was, now, prev, r, req, program, p) && |was| == |now|
    ensures Confined(was, now, p)
  {
    hide FreshReply;
    forall a | 0 <= a < |was| && !(LOAD_START <= a < p.vaddrBreak) && !(p.buffer <= a < p.buffer + p.bufferSize)
      ensures now[a] == was[a]
    {
      if now[a] != was[a] {
        FreshConfined(was, now, prev, r, req, program, p, a);
        assert false;
      }
    }
  }

  lemma SameConfined(m: seq<byte>, p: Place)
    ensures Confined(m, m, p)
  {
  }

  lemma ConfinedChain(m0: seq<byte>, m1: seq<byte>, m2: seq<byte>, p: Place)
    requires Confined(m0, m1, p) && Confined(m1, m2, p)
    ensures Confined(m0, m2, p)
  {
  }

  lemma PutConfined(m: seq<byte>, p: Place, off: nat, data: seq<byte>)
    requires off + |data| <= p.bufferSize && p.buffer + p.bufferSize <= |m|
    ensures Confined(m, Put(m, p.buffer + off, data), p)
  {
    hide Put;
    var t := Put(m, p.buffer + off, data);
    forall a | 0 <= a < |m| && !(p.buffer <= a < p.buffer + p.bufferSize)
      ensures t[a] == m[a]
    {
      PutByte(m, p.buffer + off, data, a);
    }
  }

  class Judge {
    const mem: array<byte>
    const place: Place
    var nJudges: u64
    var totalTimeNs: u64
    var judgeSeq: u64
    var result: JudgeResult
    var cleared: bool
    /** Every reply and every buffer change so far, how many requests were judged, and the times of the completed
        ones. */
    ghost var history: seq<Event>
    ghost var judged: nat
    ghost var times: seq<nat>

    ghost predicate Valid()
      reads this
    {
      && PlaceOk(place, mem.Length)
      && Recorded(history, judgeSeq, result, cleared) && Counted(nJudges, judged, totalTimeNs, times)
    }

    /** The judge after init. */
    constructor (mem: array<byte>, place: Place)
      requires PlaceOk(place, mem.Length)
      ensures Valid() && result == NOT_JUDGED && nJudges == judged == 0 && totalTimeNs == 0 && history == []
      ensures this.mem == mem && this.place == place
    {
      this.mem, this.place := mem, place;
      nJudges, totalTimeNs, judgeSeq, result, cleared := 0, 0, W - 1, NOT_JUDGED, true;
      history, judged, times := [], 0, [];
    }

    /** clear_judge_result, after a successful buffer change. */
    method ClearResult()
      requires Valid()
      modifies `judgeSeq, `result, `cleared, `history
      ensures Valid() && result == NOT_JUDGED && judgeSeq == W - 1 && history == old(history) + [Changed]
    {
      hide Counted, Recorded;
      RecordChange(history, judgeSeq, result, cleared);
      if !cleared {
        cleared := true;
        judgeSeq := W - 1;
        result := NOT_JUDGED;
      }
      history := history + [Changed];
    }

    predicate InBuffer(off: u64, len: u64) {
      ValidBuffer(BufferDesc(off, len), place.bufferSize)
    }

    method WriteBuffer(off: u64, data: seq<byte>) returns (ok: bool)
      requires Valid() && |data| < W
      modifies `judgeSeq, `result, `cleared, `history, mem
      ensures Valid() && (ok <==> InBuffer(off, |data|))
      ensures ok ==>
                && mem[..] == Put(old(mem[..]), place.buffer + off, data) && result == NOT_JUDGED
                && history == old(history) + [Changed]
      ensures !ok ==>
                && mem[..] == old(mem[..]) && result == old(result) && judgeSeq == old(judgeSeq)
                && history == old(history)
    {
      if InBuffer(off, |data|) {
        Blit(data, mem, place.buffer + off);
        ClearResult();
        return true;
      }
      return false;
    }

    method ClearBuffer(off: u64, len: u64) returns (ok: bool)
      requires Valid()
      modifies `judgeSeq, `result, `cleared, `history, mem
      ensures Valid() && (ok <==> InBuffer(off, len))
      ensures ok ==>
                && mem[..] == Put(old(mem[..]), place.buffer + off, seq(len, _ => 0)) && result == NOT_JUDGED
                && history == old(history) + [Changed]
      ensures !ok ==>
                && mem[..] == old(mem[..]) && result == old(result) && judgeSeq == old(judgeSeq)
                && history == old(history)
    {
      if InBuffer(off, len) {
        Blit(seq(len, _ => 0), mem, place.buffer + off);
        ClearResult();
        return true;
      }
      return false;
    }

    /** copy_buffer: the overlap test uses wrapping sums, which the range tests make exact. */
    method CopyBuffer(dst: u64, src: u64, len: u64) returns (ok: bool)
      requires Valid()
      modifies `judgeSeq, `result, `cleared, `history, mem
      ensures Valid()
      ensures ok <==> InBuffer(dst, len) && InBuffer(src, len) && Disjoint(BufferDesc(dst, len), BufferDesc(src, len))
      ensures ok ==>
                && (var b := place.buffer;
                    mem[..] == Put(old(mem[..]), b + dst, old(mem[..])[b + src..b + src + len]))
                && result == NOT_JUDGED && history == old(history) + [Changed]
      ensures !ok ==>
                && mem[..] == old(mem[..]) && result == old(result) && judgeSeq == old(judgeSeq)
                && history == old(history)
    {
      hide Put, Sum, LastReply, Coherent;
      var apart := Wrap(dst + len) <= src || Wrap(src + len) <= dst;
      if InBuffer(dst, len) && InBuffer(src, len) && apart {
        Blit(mem[place.buffer + src..place.buffer + src + len], mem, place.buffer + dst);
        ClearResult();
        return true;
      }
      return false;
    }

    /** The program runs: it may leave anything in [0x400000, special) and touches nothing else. */
    method RunUser(special: nat, left: nat -> byte)
      requires LOAD_START <= special <= mem.Length
      modifies mem
      ensures mem[..] == Put(old(mem[..]), LOAD_START, Tape(left, LOAD_START, special - LOAD_START))
    {
      Blit(Tape(left, LOAD_START, special - LOAD_START), mem, LOAD_START);
    }

    /** Copy `n` bytes from the user region, still as in `m`, up into the buffer. */
    method CopyUp(dst: nat, src: nat, n: nat, ghost m: seq<byte>, ghost special: nat)
      requires |m| == mem.Length && src + n <= special <= dst && dst + n <= mem.Length
      requires mem[..special] == m[..special]
      modifies mem
      ensures mem[..] == Put(old(mem[..]), dst, m[src..src + n])
      ensures mem[..special] == m[..special]
    {
      hide Put;
      SubSlice(mem[..], 0, special, src, src + n);
      SubSlice(m, 0, special, src, src + n);
      PutElsewhere(mem[..], dst, m[src..src + n], 0, special);
      Blit(mem[src..src + n], mem, dst);
      assert mem[..special] == mem[..][0..special];
    }

    /** The three copies, whose sources all lie below `special` and whose targets lie above. */
    method CopyThree(x: Range, y: Range, z: Range, ghost special: nat)
      requires x.src + x.len <= special <= x.dst && x.dst + x.len <= mem.Length
      requires y.src + y.len <= special <= y.dst && y.dst + y.len <= mem.Length
      requires z.src + z.len <= special <= z.dst && z.dst + z.len <= mem.Length
      modifies mem
      ensures mem[..] == CopiedThree(old(mem[..]), x, y, z)
    {
      hide Put;
      ghost var m := mem[..];
      CopyUp(x.dst, x.src, x.len, m, special);
      CopyUp(y.dst, y.src, y.len, m, special);
      CopyUp(z.dst, z.src, z.len, m, special);
    }

    /** Copy the outputs of a finished run to the buffer; returns the clamped stdout and stderr sizes. */
    method CopyBack(l: Layout, req: Request) returns (so: u64, se: u64)
      requires Room(l, req, mem.Length, place)
      modifies mem
      ensures so == StdoutSize(old(mem[..]), l, req) && se == StderrSize(old(mem[..]), l, req)
      ensures mem[..] == CopiedBack(old(mem[..]), l, req, place)
    {
      hide CopiedThree, StdoutSize, StderrSize, Room;
      RoomFacts(l, req, mem.Length, place);
      var x, y := StdoutRange(mem[..], l, req, place), StderrRange(mem[..], l, req, place);
      CopyThree(x, y, ObRange(l, req, place), l.special);
      return x.len, y.len;
    }

    /** Run a loaded program from the memory it was loaded into, and copy its outputs back. */
    method Execute(req: Request, program: Program, app: App, ghost f: seq<byte>, ghost was: seq<byte>, ghost s: Sources)
        returns (so: u64, se: u64, run: UserRun)
      requires Completed(f, was, mem[..], s, ConfigOf(req), app, place.tscFreq)
      requires Room(app.layout, req, mem.Length, place)
      modifies mem
      ensures LOAD_START <= app.layout.special <= |was| == mem.Length && run == program(old(mem[..]), app)
      ensures
        var m := Ran(was, app.layout, run.left);
        && mem[..] == CopiedBack(m, app.layout, req, place)
        && so == StdoutSize(m, app.layout, req) && se == StderrSize(m, app.layout, req)
    {
      hide Completed, Put, CopiedBack, StdoutSize, StderrSize, Ran;
      run := program(mem[..], app);
      RanAfterLoad(f, was, mem[..], s, ConfigOf(req), app, place.tscFreq, run.left);
      RunUser(app.layout.special, run.left);
      so, se := CopyBack(app.layout, req);
    }

    /** The checks before the file is looked at. */
    method CheckRequest(req: Request) returns (e: Error)
      requires PlaceOk(place, mem.Length)
      ensures e == Refusal(req, place)
    {
      hide KbGuardPasses;
      if !KbGuardPasses(req.memoryKb) {
        return CantLoadElf;
      }
      var ok := CheckBuffers(Descs(req), place.bufferSize);
      if !ok {
        return CantLoadElf;
      }
      if req.timeLimitNs == 0 || req.timeLimitNs > MAX_TIME_LIMIT_NS {
        return InvalidTimeLimit;
      }
      return NoError;
    }

    /** Load, run and copy back; nothing happens if the file is refused. */
    method LoadAndRun(req: Request, program: Program) returns (r: Option<JudgeResult>)
      requires PlaceOk(place, mem.Length) && Refusal(req, place) == NoError
      modifies mem
      ensures
        var was, s := old(mem[..]), SourcesOf(req, place.buffer);
        && s.elf + s.elfLen <= |was|
        && (r.Some? <==> Accepts(FileOf(was, s), ConfigOf(req), place.kernelBreak, place.vaddrBreak))
        && (r.None? ==> mem[..] == was)
        && (r.Some? ==> r.value.error == NoError && r.value.timeNs <= req.timeLimitNs)
        && (r.Some? ==> !(r.value.isRE && r.value.isTLE))
        && (r.Some? ==> exists loaded: seq<byte>, app: App ::
              Completes(was, mem[..], r.value, req, program, place, loaded, app))
      ensures r.Some? ==> req.memoryKb * 1024 < W && req.elf.len < 0x1_0000_0000
    {
      hide Accepts, LayoutFrom, Ran, CopiedBack, StdoutSize, StderrSize, SourcesOutside, Completed, Room, KbGuardPasses;
      ghost var was := mem[..];
      var s, c := SourcesOf(req, place.buffer), ConfigOf(req);
      SourcesFit(req, place, mem.Length);
      var app := LoadElf(mem, s, c, place.kernelBreak, place.vaddrBreak, place.tscFreq);
      if app.None? {
        return None;
      }
      ghost var f, loaded := FileOf(was, s), mem[..];
      AcceptedJudge(f, req, place, mem.Length);
      var so, se, run := Execute(req, program, app.value, f, was, s);
      r := Some(Verdict(req, run, so, se));
      assert Completes(was, mem[..], r.value, req, program, place, loaded, app.value);
    }

    /** The body of judge for a new sequence number. */
    method Fresh(req: Request, program: Program) returns (r: JudgeResult)
      requires PlaceOk(place, mem.Length) && Coherent(result)
      requires Counted(nJudges, judged, totalTimeNs, times) && |times| < judged
      modifies `result, `totalTimeNs, `times, mem
      ensures r == result && Coherent(result)
      ensures FreshReply(old(mem[..]), mem[..], old(result), r, req, program, place)
      ensures times == if r.error == NoError then old(times) + [r.timeNs as nat] else old(times)
      ensures Counted(nJudges, judged, totalTimeNs, times)
      ensures r.error == NoError ==> req.memoryKb * 1024 < W && req.elf.len < 0x1_0000_0000
    {
      hide Accepts, Completes, Counted, KbGuardPasses, BuffersOk, PlaceOk, SourcesOf, FileOf, ConfigOf;
      var refusal := CheckRequest(req);
      if refusal != NoError {
        result := result.(error := refusal);
        return result;
      }
      var done := LoadAndRun(req, program);
      if done.None? {
        result := result.(error := CantLoadElf);
        return result;
      }
      result := done.value;
      CountTime(nJudges, judged, totalTimeNs, times, result.timeNs);
      totalTimeNs := Wrap(totalTimeNs + result.timeNs);
      times := times + [result.timeNs];
      return result;
    }

    /** judge: a repeated sequence number replays the last result; anything else is a fresh request. */
    method Run(req: Request, program: Program) returns (r: JudgeResult)
      requires Valid()
      modifies this, mem
      ensures Valid() && r == result && history == old(history) + [Judged(req.seqNum, r)]
      ensures judged == old(judged) <==> Replays(old(history), req.seqNum)
      ensures Replays(old(history), req.seqNum) ==>
                && r == old(result) && mem[..] == old(mem[..])
                && nJudges == old(nJudges) && totalTimeNs == old(totalTimeNs) && times == old(times)
      ensures !Replays(old(history), req.seqNum) ==>
                && judged == old(judged) + 1
                && FreshReply(old(mem[..]), mem[..], old(result), r, req, program, place)
                && times == if r.error == NoError then old(times) + [r.timeNs] else old(times)
      ensures !Replays(old(history), req.seqNum) && r.error == NoError ==>
                req.memoryKb * 1024 < W && req.elf.len < 0x1_0000_0000
      ensures Confined(old(mem[..]), mem[..], place)
    {
      hide Recorded, Counted, FreshReply, Replays, Coherent, Confined, Consistent;
      RecordReplay(history, judgeSeq, result, cleared);
      if req.seqNum == judgeSeq {
        history := history + [Judged(req.seqNum, result)];
        SameConfined(mem[..], place);
        return result;
      }
      CountOne(nJudges, judged, totalTimeNs, times);
      nJudges := Wrap(nJudges + 1);
      judged := judged + 1;
      cleared := false;
      judgeSeq := req.seqNum;
      r := Fresh(req, program);
      RecordReply(history, req.seqNum, r);
      history := history + [Judged(req.seqNum, r)];
      FreshKeepsOutside(old(mem[..]), mem[..], old(result), r, req, program, place);
    }
  }

  /** Such a lost request on a judge: the buffer is written, then number 2^64 - 1 comes and is not judged. */
  method AskLost(mem: array<byte>, place: Place, req: Request, program: Program) returns (j: Judge, r: JudgeResult)
    requires PlaceOk(place, mem.Length) && place.bufferSize > 0 && req.seqNum == W - 1
    modifies mem
    ensures r == NOT_JUDGED && j.judged == j.nJudges == 0 && j.history == [Changed, Judged(W - 1, NOT_JUDGED)]
    ensures mem[..] == Put(old(mem[..]), place.buffer, [0])
  {
    hide Put, FreshReply;
    j := new Judge(mem, place);
    var ok := j.WriteBuffer(0, [0]);
    assert j.history == [Changed] && LastReply(j.history) == None;
    r := j.Run(req, program);
  }

  /** Valid buffers keep every source inside memory and above the break, and the ELF length inside 32 bits. */
  lemma SourcesFit(req: Request, p: Place, size: nat)
    requires BuffersOk(req, p.bufferSize) && PlaceOk(p, size)
    ensures SourcesOutside(size, SourcesOf(req, p.buffer), ConfigOf(req), p.vaddrBreak)
    ensures req.elf.len < 0x1_0000_0000
  {
    assert ValidBuffer(Descs(req)[0], p.bufferSize) && ValidBuffer(Descs(req)[1], p.bufferSize);
    assert ValidBuffer(Descs(req)[4], p.bufferSize) && ValidBuffer(Descs(req)[5], p.bufferSize);
  }

  /** Acceptance makes room for copy-back, and shows that the memory limit never wrapped. */
  lemma AcceptedJudge(f: seq<byte>, req: Request, p: Place, size: nat)
    requires Accepts(f, ConfigOf(req), p.kernelBreak, p.vaddrBreak) && KbGuardPasses(req.memoryKb)
    requires BuffersOk(req, p.bufferSize) && PlaceOk(p, size)
    ensures Room(LayoutFrom(High(f), ConfigOf(req)), req, size, p)
    ensures req.memoryKb * 1024 < W
  {
    hide Accepts, LayoutFrom;
    AcceptedRegions(f, ConfigOf(req), p.kernelBreak, p.vaddrBreak);
    GuardRescued(req.memoryKb);
    assert ValidBuffer(Descs(req)[2], p.bufferSize) && ValidBuffer(Descs(req)[3], p.bufferSize)
        && ValidBuffer(Descs(req)[5], p.bufferSize);
  }

  /** Loading wrote only where the run may write, so the run hides it all. */
  lemma RanAfterLoad(f: seq<byte>, was: seq<byte>, loaded: seq<byte>, s: Sources, c: Config, app: App, tscFreq: u64,
      left: nat -> byte)
    requires Completed(f, was, loaded, s, c, app, tscFreq)
    ensures LOAD_START <= app.layout.special <= |was| == |loaded|
    ensures
      var n := app.layout.special - LOAD_START;
      Put(loaded, LOAD_START, Tape(left, LOAD_START, n)) == Ran(was, app.layout, left)
  {
    hide WithBuffers, WithSegments, StartBlock, Fits, SourcesOutside;
    var l := app.layout;
    LoadConfined(f, was, loaded, s, c, app, tscFreq, 0, LOAD_START);
    LoadConfined(f, was, loaded, s, c, app, tscFreq, l.special, |was|);
    assert loaded[..LOAD_START] == was[..LOAD_START] && loaded[l.special..] == was[l.special..];
  }
}
