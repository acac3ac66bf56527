/** Everything the judge is asked to do after set-up: its answers, what its caches hold, and what it never touches. */
module JudgeRuns {
  import opened Machine
  import opened Bytes
  import opened VirtualMemory
  import opened CacheSpec
  import D = DuckCache
  import J = Judger
  import I = JudgeInit
  import L = ElfLayout
  import R = CacheRuns

  /** In the cache requests `left` is what the cache leaves in its own region of memory. */
  datatype Request =
    | RunRequest(req: J.Request, program: J.Program)
    | WriteRequest(off: u64, bytes: seq<byte>)
    | ClearRequest(off: u64, len: u64)
    | CopyRequest(dst: u64, src: u64, len: u64)
    | LoadRequest(cache: string, off: u64, len: u64, hex: string, now: u64, left: nat -> byte)
    | StoreRequest(cache: string, off: u64, len: u64, hex: string, now: u64, left: nat -> byte)

  /** What the callers of the cache requests see to: a range inside the buffer, 64 digits and a running clock. */
  predicate WellFormed(r: Request, bufferSize: u64) {
    match r
    case WriteRequest(_, bytes) => |bytes| < W
    case LoadRequest(_, off, len, hex, now, _) => off + len <= bufferSize && |hex| == 64 && now != 0
    case StoreRequest(_, off, len, hex, now, _) => off + len <= bufferSize && |hex| == 64 && now != 0
    case _ => true
  }

  predicate ForCache(r: Request) {
    r.LoadRequest? || r.StoreRequest?
  }

  predicate Names(r: Request, name: string) {
    ForCache(r) && r.cache == name
  }

  /** Every judge request is answered under its number; any other request is a buffer change or leaves no trace. */
  ghost predicate Logged(h: seq<J.Event>, h': seq<J.Event>, r: Request) {
    if r.RunRequest? then |h'| == |h| + 1 && h'[|h|].Judged? && h'[|h|].seqNum == r.req.seqNum && h'[..|h|] == h
    else h' == h || h' == h + [J.Changed]
  }

  /** The numbers of all replies, in order. */
  ghost function Answered(h: seq<J.Event>): seq<u64> {
    if h == [] then []
    else
      var e := h[|h| - 1];
      Answered(h[..|h| - 1]) + (if e.Judged? then [e.seqNum] else [])
  }

  /** The numbers of all judge requests, in order. */
  ghost function Asked(rs: seq<Request>): seq<u64> {
    if rs == [] then []
    else
      var r := rs[|rs| - 1];
      Asked(rs[..|rs| - 1]) + (if r.RunRequest? then [r.req.seqNum] else [])
  }

  lemma AnsweredMore(h0: seq<J.Event>, h: seq<J.Event>, h': seq<J.Event>, rs: seq<Request>, i: nat)
    requires i < |rs| && Logged(h, h', rs[i]) && Answered(h) == Answered(h0) + Asked(rs[..i])
    ensures Answered(h') == Answered(h0) + Asked(rs[..i + 1])
  {
    assert rs[..i + 1][..i] == rs[..i];
    assert h' != h ==> h'[..|h'| - 1] == h;
  }

  // ---- What each request is answered ----

  /** One served request: memory and history before and after it, and the answer to a buffer or cache request. */
  datatype Served = Served(request: Request, was: seq<byte>, now: seq<byte>, before: seq<J.Event>, after: seq<J.Event>,
                           ok: bool)

  predicate InRange(off: u64, len: nat, size: u64) {
    off < size && off + len <= size
  }

  /** A change of the buffer that is accepted exactly when it is in order. */
  ghost predicate ChangeAnswer(s: Served, inOrder: bool, at: nat, bytes: seq<byte>) {
    if inOrder then
      && s.ok && at + |bytes| <= |s.was|
      && s.now == Put(s.was, at, bytes) && s.after == s.before + [J.Changed]
    else !s.ok && s.now == s.was && s.after == s.before
  }

  /** A replay gives the stored reply and changes nothing; anything else is judged as asked. */
  ghost predicate RunAnswer(s: Served, req: J.Request, program: J.Program, reply: J.JudgeResult, p: J.Place) {
    && s.after == s.before + [J.Judged(req.seqNum, reply)]
    && if J.Replays(s.before, req.seqNum) then reply == J.Stored(s.before) && s.now == s.was
       else J.FreshReply(s.was, s.now, J.Stored(s.before), reply, req, program, p)
  }

  ghost predicate JudgeAnswer(s: Served, p: J.Place) {
    match s.request
    case RunRequest(req, program) => exists reply :: RunAnswer(s, req, program, reply, p)
    case WriteRequest(off, bytes) => ChangeAnswer(s, InRange(off, |bytes|, p.bufferSize), p.buffer + off, bytes)
    case ClearRequest(off, len) =>
      ChangeAnswer(s, InRange(off, len, p.bufferSize), p.buffer + off, seq(len, _ => 0))
    case CopyRequest(dst, src, len) =>
      ChangeAnswer(s, InRange(dst, len, p.bufferSize) && InRange(src, len, p.bufferSize)
                      && (dst + len <= src || src + len <= dst),
                   p.buffer + dst, I.Slice(s.was, p.buffer + src, len))
    case _ => false
  }

  /** On the cache in region `own`: a hit is a buffer change, nothing else shows in the judge. */
  ghost predicate CacheAnswer(s: Served, p: J.Place, own: Region) {
    match s.request
    case LoadRequest(_, off, len, _, _, left) =>
      if s.ok then I.HitEffect(s.was, s.now, p.buffer + off, len, own, left) && s.after == s.before + [J.Changed]
      else s.now == s.was && s.after == s.before
    case StoreRequest(_, _, _, _, _, left) =>
      && s.after == s.before && own.lo <= own.hi <= |s.was|
      && (s.now == s.was || s.now == I.Scribbled(s.was, own, left))
    case _ => false
  }

  ghost predicate Answers(s: Served, p: J.Place, elf: Region, data: Region) {
    if Names(s.request, "elf") then CacheAnswer(s, p, elf)
    else if Names(s.request, "data") then CacheAnswer(s, p, data)
    else if ForCache(s.request) then !s.ok && s.now == s.was && s.after == s.before
    else JudgeAnswer(s, p)
  }

  lemma AnswersLogged(s: Served, p: J.Place, elf: Region, data: Region)
    requires Answers(s, p, elf, data)
    ensures Logged(s.before, s.after, s.request)
  {
    hide J.FreshReply, J.Replays, J.Stored, I.HitEffect, I.Scribbled, Put;
  }

  /** A judge request. */
  method ServeRun(j: J.Judge, r: Request)
    requires j.Valid() && r.RunRequest?
    modifies j, j.mem
    ensures j.Valid() && J.Confined(old(j.mem[..]), j.mem[..], j.place)
    ensures forall ok ::
              JudgeAnswer(Served(r, old(j.mem[..]), j.mem[..], old(j.history), j.history, ok), j.place)
  {
    hide J.Confined, J.FreshReply, J.Recorded, J.Counted, J.Replays, J.Stored;
    ghost var was, h := j.mem[..], j.history;
    StoredResult(j);
    var reply := j.Run(r.req, r.program);
    forall ok
      ensures JudgeAnswer(Served(r, was, j.mem[..], h, j.history, ok), j.place)
    {
      assert RunAnswer(Served(r, was, j.mem[..], h, j.history, ok), r.req, r.program, reply, j.place);
    }
  }

  lemma StoredResult(j: J.Judge)
    requires j.Valid()
    ensures j.result == J.Stored(j.history)
  {
    hide J.Counted, J.Consistent;
  }

  /** A judge or buffer request. */
  method ServeJudge(j: J.Judge, r: Request) returns (ok: bool)
    requires j.Valid() && WellFormed(r, j.place.bufferSize) && !ForCache(r)
    modifies j, j.mem
    ensures j.Valid() && J.Confined(old(j.mem[..]), j.mem[..], j.place)
    ensures JudgeAnswer(Served(r, old(j.mem[..]), j.mem[..], old(j.history), j.history, ok), j.place)
  {
    hide J.Confined, RunAnswer, J.Recorded, J.Counted, Put;
    ghost var was := j.mem[..];
    J.SameConfined(was, j.place);
    BufferInside(j);
    match r
    case RunRequest(req, program) =>
      ServeRun(j, r);
      ok := true;
    case WriteRequest(off, bytes) =>
      ok := j.WriteBuffer(off, bytes);
      if ok { J.PutConfined(was, j.place, off, bytes); }
    case ClearRequest(off, len) =>
      ok := j.ClearBuffer(off, len);
      if ok { J.PutConfined(was, j.place, off, seq(len, _ => 0)); }
    case CopyRequest(dst, src, len) =>
      ok := j.CopyBuffer(dst, src, len);
      if ok { J.PutConfined(was, j.place, dst, was[j.place.buffer + src..j.place.buffer + src + len]); }
  }

  lemma BufferInside(j: J.Judge)
    requires j.Valid()
    ensures j.place.buffer + j.place.bufferSize <= j.mem.Length
  {
  }

  // ---- Cache requests as events of a cache ----

  ghost predicate Spelled(hex: string) {
    |hex| == 64 && I.AllHex(hex)
  }

  /** What the cache called `name` sees of a request: bytes stored were in the buffer before, bytes loaded are after. */
  ghost function EventOf(s: Served, name: string, buffer: nat): Option<Event> {
    match s.request
    case LoadRequest(cache, off, len, hex, now, _) =>
      if cache == name && Spelled(hex) then
        Some(Load(I.DigestOf(hex), len, now, if s.ok then Some(I.Slice(s.now, buffer + off, len)) else None))
      else None
    case StoreRequest(cache, off, len, hex, now, _) =>
      if cache == name && Spelled(hex) then Some(Store(I.DigestOf(hex), I.Slice(s.was, buffer + off, len), now, s.ok))
      else None
    case _ => None
  }

  ghost function Events(log: seq<Served>, name: string, buffer: nat): seq<Event> {
    if log == [] then []
    else
      var before := Events(log[..|log| - 1], name, buffer);
      match EventOf(log[|log| - 1], name, buffer)
      case Some(e) => before + [e]
      case None => before
  }

  /** The cache steps by the event, or not at all. */
  ghost predicate StepBy(e: Option<Event>, c: Cache, c': Cache) {
    match e
    case Some(e) => Step(c, e, c')
    case None => c' == c
  }

  /** The requests served so far are a run of the cache called `name`, which now is `c`. */
  ghost predicate Tracked(log: seq<Served>, states: seq<Cache>, name: string, buffer: nat, c: Cache) {
    Run(states, Events(log, name, buffer)) && states[|states| - 1] == c
  }

  lemma TrackMore(log: seq<Served>, states: seq<Cache>, name: string, buffer: nat, c: Cache, s: Served, c': Cache)
      returns (states': seq<Cache>)
    requires Tracked(log, states, name, buffer, c) && StepBy(EventOf(s, name, buffer), c, c')
    ensures Tracked(log + [s], states', name, buffer, c')
  {
    hide Step, EventOf, Run;
    var events := Events(log, name, buffer);
    RunSizes(states, events);
    assert (log + [s])[..|log|] == log;
    match EventOf(s, name, buffer)
    case Some(e) =>
      R.RunExtends(states, events, e, c');
      states' := states + [c'];
    case None =>
      states' := states;
  }

  lemma RunSizes(states: seq<Cache>, events: seq<Event>)
    requires Run(states, events)
    ensures |states| == |events| + 1
  {
  }

  /** All that was served, and the states of both caches. */
  datatype Trace = Trace(log: seq<Served>, elf: seq<Cache>, data: seq<Cache>)

  /** Each request found memory and history as the one before left them. */
  ghost predicate Chained(log: seq<Served>, mem: seq<byte>, h: seq<J.Event>) {
    && (forall i | 0 < i < |log| :: log[i].was == log[i - 1].now && log[i].before == log[i - 1].after)
    && (log != [] ==> log[|log| - 1].now == mem && log[|log| - 1].after == h)
  }

  ghost predicate AllAnswered(log: seq<Served>, p: J.Place, elf: Region, data: Region) {
    forall i | 0 <= i < |log| :: Answers(log[i], p, elf, data)
  }

  /** Where the judge and the two caches are. */
  datatype Site = Site(place: J.Place, elf: Region, data: Region)

  /** Every request was answered as it should be, one after another, and both caches ran through theirs. */
  ghost predicate Traced(t: Trace, a: Site, mem: seq<byte>, h: seq<J.Event>, elf: Cache, data: Cache) {
    && Chained(t.log, mem, h) && AllAnswered(t.log, a.place, a.elf, a.data)
    && Tracked(t.log, t.elf, "elf", a.place.buffer, elf) && Tracked(t.log, t.data, "data", a.place.buffer, data)
  }

  lemma TraceMore(t: Trace, a: Site, elf: Cache, data: Cache, s: Served, elf': Cache, data': Cache)
      returns (t': Trace)
    requires Traced(t, a, s.was, s.before, elf, data) && Answers(s, a.place, a.elf, a.data)
    requires StepBy(EventOf(s, "elf", a.place.buffer), elf, elf')
    requires StepBy(EventOf(s, "data", a.place.buffer), data, data')
    ensures Traced(t', a, s.now, s.after, elf', data') && t'.log == t.log + [s]
  {
    hide Tracked, StepBy, EventOf, Answers;
    var e := TrackMore(t.log, t.elf, "elf", a.place.buffer, elf, s, elf');
    var d := TrackMore(t.log, t.data, "data", a.place.buffer, data, s, data');
    t' := Trace(t.log + [s], e, d);
  }

  /** The log of `t'` goes on from that of `t`, from memory `was` and history `h` on, with the requests `rs`. */
  ghost predicate GoesOn(t: Trace, t': Trace, rs: seq<Request>, was: seq<byte>, h: seq<J.Event>) {
    && |t'.log| == |t.log| + |rs| && t'.log[..|t.log|] == t.log
    && (forall i | 0 <= i < |rs| :: t'.log[|t.log| + i].request == rs[i])
    && (rs != [] ==> t'.log[|t.log|].was == was && t'.log[|t.log|].before == h)
  }

  lemma GoesOnMore(t: Trace, t1: Trace, t2: Trace, rs: seq<Request>, i: nat, was: seq<byte>, h: seq<J.Event>, s: Served)
    requires i < |rs| && GoesOn(t, t1, rs[..i], was, h) && t2.log == t1.log + [s] && s.request == rs[i]
    requires i == 0 ==> s.was == was && s.before == h
    ensures GoesOn(t, t2, rs[..i + 1], was, h)
  {
  }

  // ---- A load returns what the inserting store read ----

  /** Event `e` of the cache comes from a request, and the events before it from the requests before that one. */
  lemma {:induction false} Origin(log: seq<Served>, name: string, buffer: nat, e: nat) returns (j: nat)
    requires e < |Events(log, name, buffer)|
    ensures j < |log| && EventOf(log[j], name, buffer) == Some(Events(log, name, buffer)[e])
    ensures Events(log[..j], name, buffer) == Events(log, name, buffer)[..e]
  {
    hide EventOf;
    var n := |log| - 1;
    var before := Events(log[..n], name, buffer);
    if e == |before| {
      j := n;
    } else {
      j := Origin(log[..n], name, buffer, e);
      assert log[..n][..j] == log[..j];
    }
  }

  /** The events of a prefix are a prefix of the events. */
  lemma {:induction false} EventsPrefix(log: seq<Served>, name: string, buffer: nat, i: nat)
    requires i < |log|
    ensures Events(log[..i], name, buffer) <= Events(log, name, buffer)
    ensures EventOf(log[i], name, buffer).Some? ==>
              && |Events(log[..i], name, buffer)| < |Events(log, name, buffer)|
              && Events(log, name, buffer)[|Events(log[..i], name, buffer)|] == EventOf(log[i], name, buffer).value
  {
    hide EventOf;
    var n := |log| - 1;
    if i == n {
    } else {
      EventsPrefix(log[..n], name, buffer, i);
      assert log[..n][..i] == log[..i];
    }
  }

  /** Request `i` was a hit of the cache called `name`. */
  ghost predicate Hit(log: seq<Served>, i: nat, name: string) {
    i < |log| && log[i].request.LoadRequest? && log[i].request.cache == name && log[i].ok && Spelled(log[i].request.hex)
  }

  /** The bytes that request `i` put into the buffer. */
  ghost function Delivered(log: seq<Served>, i: nat, buffer: nat): seq<byte>
    requires i < |log| && log[i].request.LoadRequest?
  {
    I.Slice(log[i].now, buffer + log[i].request.off, log[i].request.len)
  }

  /** The bytes that request `j` took from the buffer. */
  ghost function Taken(log: seq<Served>, j: nat, buffer: nat): seq<byte>
    requires j < |log| && log[j].request.StoreRequest?
  {
    I.Slice(log[j].was, buffer + log[j].request.off, log[j].request.len)
  }

  /**
   A load_cache hit puts into the buffer the very bytes that an earlier store_cache under the same digits took from it:
   the store that found the digest absent and brought it in.
   */
  lemma LoadReturnsStored(log: seq<Served>, states: seq<Cache>, name: string, buffer: nat, c: Cache, i: nat)
      returns (j: nat)
    requires Tracked(log, states, name, buffer, c) && Hit(log, i, name)
    ensures j < i && log[j].request.StoreRequest? && log[j].request.cache == name && log[j].ok
    ensures I.SameDigits(log[j].request.hex, log[i].request.hex)
    ensures Delivered(log, i, buffer) == Taken(log, j, buffer) && |Taken(log, j, buffer)| == log[i].request.len
    ensures |states| == |Events(log, name, buffer)| + 1 && Spelled(log[i].request.hex)
    ensures InsertedAt(states, Events(log, name, buffer), |Events(log[..j], name, buffer)|,
                       |Events(log[..i], name, buffer)|, I.DigestOf(log[i].request.hex), Taken(log, j, buffer))
  {
    hide Run, InsertedAt, EventOf, Delivered, Taken, Hit, Spelled, I.DigestOf, I.SameDigits;
    var events := Events(log, name, buffer);
    RunSizes(states, events);
    var k, d, b := HitEvent(log, name, buffer, i);
    LoadYieldsStoredBytes(states, events, k);
    var e: nat :| InsertedAt(states, events, e, k, d, b);
    InsertedFacts(states, events, e, k, d, b);
    EventsPrefix(log, name, buffer, i);
    j := Origin(log[..i], name, buffer, e);
    assert log[..i][j] == log[j] && log[..i][..j] == log[..j];
    assert Events(log[..i], name, buffer)[e] == events[e];
    StoreEvent(log, name, buffer, j, d, b, log[i].request.hex);
  }

  /** The event of a hit. */
  lemma HitEvent(log: seq<Served>, name: string, buffer: nat, i: nat) returns (k: nat, d: Digest256, b: seq<byte>)
    requires Hit(log, i, name)
    ensures i < |log| && log[i].request.LoadRequest? && Spelled(log[i].request.hex)
    ensures d == I.DigestOf(log[i].request.hex) && b == Delivered(log, i, buffer)
    ensures k == |Events(log[..i], name, buffer)| < |Events(log, name, buffer)|
    ensures
      var e := Events(log, name, buffer)[k];
      e.Load? && e.digest == d && e.len == log[i].request.len && e.got == Some(b)
  {
    hide I.DigestOf, I.AllHex, Events, I.Slice;
    EventsPrefix(log, name, buffer, i);
    k, d, b := |Events(log[..i], name, buffer)|, I.DigestOf(log[i].request.hex), Delivered(log, i, buffer);
  }

  /** The request behind a store event. */
  lemma StoreEvent(log: seq<Served>, name: string, buffer: nat, j: nat, d: Digest256, b: seq<byte>, hex: string)
    requires j < |log| && EventOf(log[j], name, buffer).Some? && EventOf(log[j], name, buffer).value.Store?
    requires
      var e := EventOf(log[j], name, buffer).value;
      e.ok && e.digest == d && e.src == b
    requires Spelled(hex) && I.DigestOf(hex) == d
    ensures log[j].request.StoreRequest? && log[j].request.cache == name && log[j].ok
    ensures I.SameDigits(log[j].request.hex, hex) && b == Taken(log, j, buffer)
  {
    hide I.DigestOf, I.AllHex, I.SameDigits, I.Slice;
    SameDigest(log[j].request.hex, hex);
  }

  lemma InsertedFacts(states: seq<Cache>, events: seq<Event>, e: nat, k: nat, d: Digest256, b: seq<byte>)
    requires |states| == |events| + 1 && InsertedAt(states, events, e, k, d, b)
    ensures e < k < |states| && events[e].Store? && events[e].ok && events[e].digest == d && events[e].src == b
  {
  }

  lemma SameDigest(s: string, t: string)
    requires Spelled(s) && Spelled(t) && I.DigestOf(s) == I.DigestOf(t)
    ensures I.SameDigits(s, t)
  {
    hide I.DigestOf, I.AllHex, I.SameDigits;
    I.DigestInjective(s, t, I.DigestOf(s));
  }

  // ---- Which memory a request may change ----

  ghost predicate RegionKept(r: Region, was: seq<byte>, now: seq<byte>) {
    r.lo <= r.hi <= |was| && r.hi <= |now| && now[r.lo..r.hi] == was[r.lo..r.hi]
  }

  /** Regions other than the judge's, number `k`, and the caches', the two after it, hold the same bytes. */
  ghost predicate OthersKept(regions: seq<Region>, k: nat, was: seq<byte>, now: seq<byte>) {
    forall i | 0 <= i < |regions| && (i < k || k + 2 < i) :: RegionKept(regions[i], was, now)
  }

  lemma RegionKeptChain(r: Region, m0: seq<byte>, m1: seq<byte>, m2: seq<byte>)
    requires RegionKept(r, m0, m1) && RegionKept(r, m1, m2)
    ensures RegionKept(r, m0, m2)
  {
  }

  lemma OthersKeptChain(regions: seq<Region>, k: nat, m0: seq<byte>, m1: seq<byte>, m2: seq<byte>)
    requires OthersKept(regions, k, m0, m1) && OthersKept(regions, k, m1, m2)
    ensures OthersKept(regions, k, m0, m2)
  {
    hide RegionKept;
    forall i | 0 <= i < |regions| && (i < k || k + 2 < i)
      ensures RegionKept(regions[i], m0, m2)
    {
      RegionKeptChain(regions[i], m0, m1, m2);
    }
  }

  lemma OthersSame(vm: Memory, k: nat, m: seq<byte>)
    requires vm.Valid() && vm.top <= |m|
    ensures OthersKept(vm.regions, k, m, m)
  {
    forall i | 0 <= i < |vm.regions|
      ensures RegionKept(vm.regions[i], m, m)
    {
      I.RegionBounds(vm, i);
    }
  }

  /** A change confined to the judge's place misses every region above the break but the one its buffer is in. */
  lemma OtherRegionsUntouched(was: seq<byte>, now: seq<byte>, p: J.Place, r: Region)
    requires J.Confined(was, now, p) && p.vaddrBreak <= r.lo <= r.hi <= |was|
    requires r.hi <= p.buffer || p.buffer + p.bufferSize <= r.lo
    ensures RegionKept(r, was, now)
  {
    forall a | r.lo <= a < r.hi
      ensures now[a] == was[a]
    {
    }
  }

  /** What a cache leaves in its own region misses every region apart from it. */
  lemma ScribbledKeeps(m: seq<byte>, own: Region, left: nat -> byte, r: Region)
    requires own.lo <= own.hi <= |m| && r.lo <= r.hi <= |m| && I.RegionsApart(own, r)
    ensures RegionKept(r, m, I.Scribbled(m, own, left))
  {
    hide I.Scribbled;
    I.ScribbledElsewhere(m, own, left, r.lo, r.hi);
  }

  /** Region `r` is apart from that of the cache which the request names, if it names one. */
  ghost predicate Spared(r: Region, request: Request, elf: Region, data: Region) {
    && (Names(request, "elf") ==> I.RegionsApart(elf, r))
    && (Names(request, "data") ==> I.RegionsApart(data, r))
  }

  /** All a request does to memory: a change confined to the judge's place, then what a named cache leaves. */
  ghost predicate Effect(was: seq<byte>, now: seq<byte>, p: J.Place, request: Request, elf: Region, data: Region) {
    exists mid: seq<byte> :: J.Confined(was, mid, p) && ScribbledBy(mid, now, request, elf, data)
  }

  ghost predicate ScribbledBy(mid: seq<byte>, now: seq<byte>, request: Request, elf: Region, data: Region) {
    || now == mid
    || (Names(request, "elf") && elf.lo <= elf.hi <= |mid| && now == I.Scribbled(mid, elf, request.left))
    || (Names(request, "data") && data.lo <= data.hi <= |mid| && now == I.Scribbled(mid, data, request.left))
  }

  lemma EffectKeeps(was: seq<byte>, now: seq<byte>, p: J.Place, request: Request, elf: Region, data: Region,
                    r: Region)
    requires Effect(was, now, p, request, elf, data) && Spared(r, request, elf, data)
    requires p.vaddrBreak <= r.lo <= r.hi <= |was| && (r.hi <= p.buffer || p.buffer + p.bufferSize <= r.lo)
    ensures RegionKept(r, was, now)
  {
    hide I.Scribbled, J.Confined, RegionKept;
    var mid: seq<byte> :| J.Confined(was, mid, p) && ScribbledBy(mid, now, request, elf, data);
    ConfinedSize(was, mid, p);
    OtherRegionsUntouched(was, mid, p, r);
    if now == mid {
    } else if Names(request, "elf") {
      ScribbledKeeps(mid, elf, request.left, r);
      RegionKeptChain(r, was, mid, now);
    } else {
      ScribbledKeeps(mid, data, request.left, r);
      RegionKeptChain(r, was, mid, now);
    }
  }

  lemma ConfinedSize(was: seq<byte>, now: seq<byte>, p: J.Place)
    requires J.Confined(was, now, p)
    ensures |was| == |now|
  {
  }

  lemma EffectOthers(vm: Memory, j: J.Judge, elf: D.DuckCache, data: D.DuckCache, k: nat, was: seq<byte>,
                     now: seq<byte>, request: Request)
    requires I.Settled(vm, j, elf, data, k) && |was| == j.mem.Length
    requires Effect(was, now, j.place, request, elf.region, data.region)
    ensures OthersKept(vm.regions, k, was, now)
  {
    hide Effect, J.Recorded, J.Counted, RegionKept;
    forall i | 0 <= i < |vm.regions| && (i < k || k + 2 < i)
      ensures RegionKept(vm.regions[i], was, now)
    {
      I.RegionBounds(vm, i);
      EffectKeeps(was, now, j.place, request, elf.region, data.region, vm.regions[i]);
    }
  }

  lemma EffectOnCaches(j: J.Judge, elf: D.DuckCache, data: D.DuckCache, was: seq<byte>, now: seq<byte>,
                       request: Request)
    requires I.Working(j, elf, data) && |was| == j.mem.Length
    requires Effect(was, now, j.place, request, elf.region, data.region)
    ensures !Names(request, "elf") ==> RegionKept(elf.region, was, now)
    ensures !Names(request, "data") ==> RegionKept(data.region, was, now)
  {
    hide Effect, J.Recorded, J.Counted, RegionKept, D.DuckCache.Valid;
    if !Names(request, "elf") {
      EffectKeeps(was, now, j.place, request, elf.region, data.region, elf.region);
    }
    if !Names(request, "data") {
      EffectKeeps(was, now, j.place, request, elf.region, data.region, data.region);
    }
  }

  // ---- Serving ----

  /** A request of the cache in region `own`: a change confined to the judge's place, then what the cache leaves. */
  ghost predicate CacheEffect(was: seq<byte>, now: seq<byte>, p: J.Place, own: Region, left: nat -> byte) {
    && own.lo <= own.hi <= |was|
    && exists mid: seq<byte> ::
         J.Confined(was, mid, p) && |mid| == |was| && (now == mid || now == I.Scribbled(mid, own, left))
  }

  lemma NoEffect(was: seq<byte>, p: J.Place, own: Region, left: nat -> byte)
    requires own.lo <= own.hi <= |was|
    ensures CacheEffect(was, was, p, own, left) && CacheEffect(was, I.Scribbled(was, own, left), p, own, left)
  {
    hide J.Confined, I.Scribbled;
    J.SameConfined(was, p);
  }

  lemma LoadEffect(was: seq<byte>, now: seq<byte>, p: J.Place, own: Region, left: nat -> byte, off: nat, n: nat)
    requires I.HitEffect(was, now, p.buffer + off, n, own, left)
    requires off + n <= p.bufferSize && p.buffer + p.bufferSize <= |was|
    ensures CacheEffect(was, now, p, own, left)
  {
    hide J.Confined, I.Scribbled, Put;
    J.PutConfined(was, p, off, I.Slice(now, p.buffer + off, n));
  }

  /** What a working judge and cache give a cache request, and what gives a working judge back. */
  lemma WorkingParts(j: J.Judge, c: D.DuckCache, other: D.DuckCache)
    requires I.Working(j, c, other)
    ensures j.Valid() && c.Valid() && I.Beside(j, c.region) && c.region.lo <= c.region.hi <= j.mem.Length
    ensures j.place.buffer + j.place.bufferSize <= j.mem.Length
  {
  }

  /** load_cache on one of the caches; the other keeps what it holds. */
  method ServeLoad(j: J.Judge, c: D.DuckCache, other: D.DuckCache, r: Request) returns (ok: bool)
    requires I.Working(j, c, other) && WellFormed(r, j.place.bufferSize) && r.LoadRequest?
    modifies j`judgeSeq, j`result, j`cleared, j`history, j.mem, c`arena, c.objMeta
    ensures I.Working(j, c, other) && other.Abs() == old(other.Abs())
    ensures CacheEffect(old(j.mem[..]), j.mem[..], j.place, c.region, r.left)
    ensures
      var s := Served(r, old(j.mem[..]), j.mem[..], old(j.history), j.history, ok);
      && CacheAnswer(s, j.place, c.region)
      && StepBy(EventOf(s, r.cache, j.place.buffer), old(c.Abs()), c.Abs())
  {
    hide D.DuckCache.Valid, LoadSpec, J.Recorded, J.Counted, I.AllHex, I.HitEffect, I.DigestOf, I.IsDigest, I.Slice,
        CacheEffect;
    ghost var was := j.mem[..];
    WorkingParts(j, c, other);
    NoEffect(was, j.place, c.region, r.left);
    ok := I.LoadCache(j, c, r.off, r.len, r.hex, r.now, r.left);
    if ok {
      LoadEffect(was, j.mem[..], j.place, c.region, r.left, r.off, r.len);
    }
  }

  /** store_cache on one of the caches; the other keeps what it holds. */
  method ServeStore(j: J.Judge, c: D.DuckCache, other: D.DuckCache, r: Request) returns (ok: bool)
    requires I.Working(j, c, other) && WellFormed(r, j.place.bufferSize) && r.StoreRequest?
    modifies j.mem, c`nCur, c`nFree, c`freeList, c`arena, c.objHash, c.objDigest, c.objMeta, c.sortIds, c.pages
    ensures I.Working(j, c, other) && other.Abs() == old(other.Abs())
    ensures CacheEffect(old(j.mem[..]), j.mem[..], j.place, c.region, r.left)
    ensures
      var s := Served(r, old(j.mem[..]), j.mem[..], old(j.history), j.history, ok);
      && CacheAnswer(s, j.place, c.region)
      && StepBy(EventOf(s, r.cache, j.place.buffer), old(c.Abs()), c.Abs())
  {
    hide D.DuckCache.Valid, StoreSpec, J.Recorded, J.Counted, I.AllHex, I.Scribbled, I.DigestOf, I.IsDigest, I.Slice,
        CacheEffect;
    WorkingParts(j, c, other);
    NoEffect(j.mem[..], j.place, c.region, r.left);
    ok := I.StoreCache(j, c, r.off, r.len, r.hex, r.now, r.left);
  }

  /** load_cache and store_cache on one of the caches. */
  method ServeCache(j: J.Judge, c: D.DuckCache, other: D.DuckCache, r: Request) returns (ok: bool)
    requires I.Working(j, c, other) && WellFormed(r, j.place.bufferSize) && ForCache(r)
    modifies j`judgeSeq, j`result, j`cleared, j`history, j.mem
    modifies c`nCur, c`nFree, c`freeList, c`arena, c.objHash, c.objDigest, c.objMeta, c.sortIds, c.pages
    ensures I.Working(j, c, other) && other.Abs() == old(other.Abs())
    ensures CacheEffect(old(j.mem[..]), j.mem[..], j.place, c.region, r.left)
    ensures
      var s := Served(r, old(j.mem[..]), j.mem[..], old(j.history), j.history, ok);
      && CacheAnswer(s, j.place, c.region)
      && StepBy(EventOf(s, r.cache, j.place.buffer), old(c.Abs()), c.Abs())
  {
    hide I.Working, EventOf, StepBy, CacheEffect, CacheAnswer, WellFormed;
    if r.LoadRequest? {
      ok := ServeLoad(j, c, other, r);
    } else {
      ok := ServeStore(j, c, other, r);
    }
  }

  /** A judge or buffer request; both caches keep what they hold. */
  method ServeBuffer(j: J.Judge, elf: D.DuckCache, data: D.DuckCache, r: Request) returns (ok: bool)
    requires I.Working(j, elf, data) && WellFormed(r, j.place.bufferSize) && !ForCache(r)
    modifies j, j.mem
    ensures I.Working(j, elf, data) && elf.Abs() == old(elf.Abs()) && data.Abs() == old(data.Abs())
    ensures J.Confined(old(j.mem[..]), j.mem[..], j.place)
    ensures JudgeAnswer(Served(r, old(j.mem[..]), j.mem[..], old(j.history), j.history, ok), j.place)
  {
    hide D.DuckCache.Valid, J.Recorded, J.Counted, WellFormed, J.Confined, I.Apart, JudgeAnswer;
    ok := ServeJudge(j, r);
  }

  lemma WorkingSwapped(j: J.Judge, elf: D.DuckCache, data: D.DuckCache)
    requires I.Working(j, elf, data)
    ensures I.Working(j, data, elf)
  {
    hide D.DuckCache.Valid, J.Recorded, J.Counted;
  }

  lemma EffectOfJudge(was: seq<byte>, now: seq<byte>, p: J.Place, r: Request, elf: Region, data: Region)
    requires J.Confined(was, now, p)
    ensures Effect(was, now, p, r, elf, data)
  {
  }

  lemma EffectOfCache(was: seq<byte>, now: seq<byte>, p: J.Place, r: Request, elf: Region, data: Region)
    requires || (Names(r, "elf") && CacheEffect(was, now, p, elf, r.left))
             || (Names(r, "data") && CacheEffect(was, now, p, data, r.left))
    ensures Effect(was, now, p, r, elf, data)
  {
    hide J.Confined, I.Scribbled;
  }

  /** An event for one cache is none for another. */
  lemma EventElsewhere(s: Served, name: string, buffer: nat, c: Cache)
    requires !Names(s.request, name)
    ensures StepBy(EventOf(s, name, buffer), c, c)
  {
  }

  /** Serve one request; a cache request that names no cache is refused. */
  method ServeOne(j: J.Judge, elf: D.DuckCache, data: D.DuckCache, r: Request) returns (ok: bool)
    requires I.Working(j, elf, data) && WellFormed(r, j.place.bufferSize)
    modifies j, j.mem
    modifies elf`nCur, elf`nFree, elf`freeList, elf`arena
    modifies elf.objHash, elf.objDigest, elf.objMeta, elf.sortIds, elf.pages
    modifies data`nCur, data`nFree, data`freeList, data`arena
    modifies data.objHash, data.objDigest, data.objMeta, data.sortIds, data.pages
    ensures I.Working(j, elf, data) && Effect(old(j.mem[..]), j.mem[..], j.place, r, elf.region, data.region)
    ensures
      var s := Served(r, old(j.mem[..]), j.mem[..], old(j.history), j.history, ok);
      && Answers(s, j.place, elf.region, data.region)
      && StepBy(EventOf(s, "elf", j.place.buffer), old(elf.Abs()), elf.Abs())
      && StepBy(EventOf(s, "data", j.place.buffer), old(data.Abs()), data.Abs())
  {
    hide I.Working, J.Confined, WellFormed, D.DuckCache.Abs, EventOf, StepBy, Effect, CacheEffect, CacheAnswer,
        JudgeAnswer;
    ghost var was, b, h := j.mem[..], j.place.buffer, j.history;
    ghost var e, d := elf.Abs(), data.Abs();
    WorkingSwapped(j, elf, data);
    ok := false;
    if !ForCache(r) {
      ok := ServeBuffer(j, elf, data, r);
      EffectOfJudge(was, j.mem[..], j.place, r, elf.region, data.region);
    } else if r.cache == "elf" {
      ok := ServeCache(j, elf, data, r);
      EffectOfCache(was, j.mem[..], j.place, r, elf.region, data.region);
    } else if r.cache == "data" {
      ok := ServeCache(j, data, elf, r);
      WorkingSwapped(j, data, elf);
      EffectOfCache(was, j.mem[..], j.place, r, elf.region, data.region);
    } else {
      J.SameConfined(was, j.place);
      EffectOfJudge(was, was, j.place, r, elf.region, data.region);
    }
    ghost var s := Served(r, was, j.mem[..], h, j.history, ok);
    if !Names(r, "elf") { EventElsewhere(s, "elf", b, e); }
    if !Names(r, "data") { EventElsewhere(s, "data", b, d); }
  }

  /**
   Any number of requests, after those of `t`. Each is answered as it should be, in order. The cache requests are runs
   of both caches. Regions other than the judge's and the caches' keep every byte, and a cache that no
   request names keeps its region and all it holds.
   */
  method Serve(j: J.Judge, elf: D.DuckCache, data: D.DuckCache, ghost vm: Memory, ghost k: nat, rs: seq<Request>,
               ghost t: Trace) returns (ghost t': Trace)
    requires I.Working(j, elf, data) && I.Settled(vm, j, elf, data, k)
    requires Traced(t, SiteOf(j, elf, data), j.mem[..], j.history, elf.Abs(), data.Abs())
    requires forall i | 0 <= i < |rs| :: WellFormed(rs[i], j.place.bufferSize)
    modifies j, j.mem
    modifies elf`nCur, elf`nFree, elf`freeList, elf`arena
    modifies elf.objHash, elf.objDigest, elf.objMeta, elf.sortIds, elf.pages
    modifies data`nCur, data`nFree, data`freeList, data`arena
    modifies data.objHash, data.objDigest, data.objMeta, data.sortIds, data.pages
    ensures I.Working(j, elf, data) && I.Settled(vm, j, elf, data, k)
    ensures J.Consistent(j.history) && Answered(j.history) == Answered(old(j.history)) + Asked(rs)
    ensures Traced(t', SiteOf(j, elf, data), j.mem[..], j.history, elf.Abs(), data.Abs())
    ensures GoesOn(t, t', rs, old(j.mem[..]), old(j.history))
    ensures OthersKept(vm.regions, k, old(j.mem[..]), j.mem[..])
    ensures (forall r | r in rs :: !Names(r, "elf")) ==>
              RegionKept(elf.region, old(j.mem[..]), j.mem[..]) && elf.Abs() == old(elf.Abs())
    ensures (forall r | r in rs :: !Names(r, "data")) ==>
              RegionKept(data.region, old(j.mem[..]), j.mem[..]) && data.Abs() == old(data.Abs())
  {
    hide I.Working, WellFormed, Answers, J.Consistent, Effect, Progress, StepBy, EventOf, D.DuckCache.Abs, OthersKept,
        RegionKept, Names;
    ghost var was, a, h0, e0, d0 := j.mem[..], SiteOf(j, elf, data), j.history, elf.Abs(), data.Abs();
    ServeStart(vm, j, elf, data, k, t);
    t' := t;
    for i := 0 to |rs|
      invariant I.Working(j, elf, data) && I.Settled(vm, j, elf, data, k) && a == SiteOf(j, elf, data)
      invariant Progress(vm.regions, k, a, t, rs[..i], was, h0, e0, d0, t', j.mem[..], j.history, elf.Abs(), data.Abs())
    {
      ghost var before, h, e, d, t1 := j.mem[..], j.history, elf.Abs(), data.Abs(), t';
      var ok := ServeOne(j, elf, data, rs[i]);
      WorkingJudge(j, elf, data);
      EffectOthers(vm, j, elf, data, k, before, j.mem[..], rs[i]);
      EffectOnCaches(j, elf, data, before, j.mem[..], rs[i]);
      t' := ProgressMore(vm.regions, k, a, t, rs, i, was, h0, e0, d0, t1, e, d,
                         Served(rs[i], before, j.mem[..], h, j.history, ok), elf.Abs(), data.Abs());
    }
    assert rs[..|rs|] == rs;
    WorkingJudge(j, elf, data);
    ProgressDone(vm.regions, k, a, t, rs, was, h0, e0, d0, t', j.mem[..], j.history, elf.Abs(), data.Abs());
  }

  ghost function SiteOf(j: J.Judge, elf: D.DuckCache, data: D.DuckCache): Site
    reads elf, data
  {
    Site(j.place, elf.region, data.region)
  }

  /** Where serving `rs` has got to: trace `t` to `t'`, memory, history and both caches. */
  ghost predicate Progress(regions: seq<Region>, k: nat, a: Site, t: Trace, rs: seq<Request>,
                           was: seq<byte>, h0: seq<J.Event>, e0: Cache, d0: Cache,
                           t': Trace, now: seq<byte>, h: seq<J.Event>, e: Cache, d: Cache)
  {
    && k + 2 < |regions| && (rs == [] ==> now == was && h == h0)
    && Answered(h) == Answered(h0) + Asked(rs)
    && Traced(t', a, now, h, e, d) && GoesOn(t, t', rs, was, h0)
    && OthersKept(regions, k, was, now)
    && Untouched("elf", rs, regions[k + 1], was, now, e0, e)
    && Untouched("data", rs, regions[k + 2], was, now, d0, d)
  }

  lemma ProgressMore(regions: seq<Region>, k: nat, a: Site, t: Trace, rs: seq<Request>, i: nat,
                     was: seq<byte>, h0: seq<J.Event>, e0: Cache, d0: Cache,
                     t1: Trace, e: Cache, d: Cache, s: Served, e': Cache, d': Cache) returns (t': Trace)
    requires i < |rs| && Progress(regions, k, a, t, rs[..i], was, h0, e0, d0, t1, s.was, s.before, e, d)
    requires s.request == rs[i] && Answers(s, a.place, a.elf, a.data) && OthersKept(regions, k, s.was, s.now)
    requires StepBy(EventOf(s, "elf", a.place.buffer), e, e') && StepBy(EventOf(s, "data", a.place.buffer), d, d')
    requires !Names(rs[i], "elf") ==> RegionKept(regions[k + 1], s.was, s.now)
    requires !Names(rs[i], "data") ==> RegionKept(regions[k + 2], s.was, s.now)
    ensures Progress(regions, k, a, t, rs[..i + 1], was, h0, e0, d0, t', s.now, s.after, e', d')
  {
    hide Answered, Asked, Logged, Traced, GoesOn, OthersKept, Untouched, RegionKept, StepBy, EventOf, Names, Answers;
    AnswersLogged(s, a.place, a.elf, a.data);
    AnsweredMore(h0, s.before, s.after, rs, i);
    t' := TraceMore(t1, a, e, d, s, e', d');
    GoesOnMore(t, t1, t', rs, i, was, h0, s);
    OthersKeptChain(regions, k, was, s.was, s.now);
    UnnamedStep(s, "elf", a.place.buffer, e, e');
    UnnamedStep(s, "data", a.place.buffer, d, d');
    UntouchedMore("elf", rs, i, regions[k + 1], was, s.was, s.now, e0, e, e');
    UntouchedMore("data", rs, i, regions[k + 2], was, s.was, s.now, d0, d, d');
  }

  lemma ProgressDone(regions: seq<Region>, k: nat, a: Site, t: Trace, rs: seq<Request>,
                     was: seq<byte>, h0: seq<J.Event>, e0: Cache, d0: Cache,
                     t': Trace, now: seq<byte>, h: seq<J.Event>, e: Cache, d: Cache)
    requires Progress(regions, k, a, t, rs, was, h0, e0, d0, t', now, h, e, d)
    ensures Answered(h) == Answered(h0) + Asked(rs) && Traced(t', a, now, h, e, d) && GoesOn(t, t', rs, was, h0)
    ensures k + 2 < |regions| && OthersKept(regions, k, was, now)
    ensures (forall r | r in rs :: !Names(r, "elf")) ==> RegionKept(regions[k + 1], was, now) && e == e0
    ensures (forall r | r in rs :: !Names(r, "data")) ==> RegionKept(regions[k + 2], was, now) && d == d0
  {
    hide Answered, Asked, Traced, GoesOn, OthersKept, RegionKept, Names;
  }

  /** A cache that none of `rs` names keeps its region and its contents. */
  ghost predicate Untouched(name: string, rs: seq<Request>, r: Region, was: seq<byte>, now: seq<byte>,
                            c: Cache, c': Cache)
  {
    (forall q | q in rs :: !Names(q, name)) ==> RegionKept(r, was, now) && c' == c
  }

  lemma UntouchedMore(name: string, rs: seq<Request>, i: nat, r: Region, m0: seq<byte>, m1: seq<byte>, m2: seq<byte>,
                      c0: Cache, c1: Cache, c2: Cache)
    requires i < |rs| && Untouched(name, rs[..i], r, m0, m1, c0, c1)
    requires !Names(rs[i], name) ==> RegionKept(r, m1, m2) && c2 == c1
    ensures Untouched(name, rs[..i + 1], r, m0, m2, c0, c2)
  {
    hide RegionKept, Names;
    assert rs[..i + 1] == rs[..i] + [rs[i]];
    if forall q | q in rs[..i + 1] :: !Names(q, name) {
      assert rs[i] in rs[..i + 1] && forall q | q in rs[..i] :: q in rs[..i + 1];
      RegionKeptChain(r, m0, m1, m2);
    }
  }

  lemma UnnamedStep(s: Served, name: string, buffer: nat, c: Cache, c': Cache)
    requires StepBy(EventOf(s, name, buffer), c, c')
    ensures !Names(s.request, name) ==> c' == c
  {
  }

  lemma ServeStart(vm: Memory, j: J.Judge, elf: D.DuckCache, data: D.DuckCache, k: nat, t: Trace)
    requires I.Working(j, elf, data) && I.Settled(vm, j, elf, data, k)
    requires Traced(t, SiteOf(j, elf, data), j.mem[..], j.history, elf.Abs(), data.Abs())
    ensures Progress(vm.regions, k, SiteOf(j, elf, data), t, [], j.mem[..], j.history, elf.Abs(), data.Abs(),
                     t, j.mem[..], j.history, elf.Abs(), data.Abs())
  {
    hide Traced, RegionKept, D.DuckCache.Valid, D.DuckCache.Abs, J.Recorded, J.Counted, OthersKept;
    var m := j.mem[..];
    OthersSame(vm, k, m);
    RegionSame(elf.region, m);
    RegionSame(data.region, m);
  }

  lemma RegionSame(r: Region, m: seq<byte>)
    ensures r.lo <= r.hi <= |m| ==> RegionKept(r, m, m)
  {
  }

  lemma WorkingJudge(j: J.Judge, elf: D.DuckCache, data: D.DuckCache)
    requires I.Working(j, elf, data)
    ensures j.Valid() && J.Consistent(j.history)
  {
  }

  /**
   From init on, whatever a client asks once it knows the buffer size: both caches run from empty, and regions allocated
   before keep every byte. `left` is what init leaves in the caches' regions.
   */
  method InitAndServe(vm: Memory, elf: D.DuckCache, data: D.DuckCache, mem: array<byte>, tscFreq: u64,
                      left: nat -> byte, asked: u64 -> seq<Request>) returns (r: I.Setup, ghost t: Trace)
    requires vm.Valid() && elf != data && vm.vaddrBreak <= L.USER_LIMIT && vm.top <= mem.Length
    requires forall size: u64, q: Request :: q in asked(size) ==> WellFormed(q, size)
    modifies vm, elf, data, mem
    ensures r.Ready? <==> old(vm.vaddrBreak) - old(vm.kernelBreak) >= 1024 * I.MIB
    ensures r.Ready? ==>
              var rs := asked(r.judge.place.bufferSize);
              && I.Working(r.judge, elf, data) && I.Settled(vm, r.judge, elf, data, |old(vm.regions)|)
              && J.Consistent(r.judge.history) && Answered(r.judge.history) == Asked(rs)
              && Traced(t, SiteOf(r.judge, elf, data), mem[..], r.judge.history, elf.Abs(), data.Abs())
              && |t.log| == |rs| && (forall i | 0 <= i < |rs| :: t.log[i].request == rs[i])
              && (rs != [] ==>
                    t.log[0].before == []
                    && I.SetUp(old(mem[..]), t.log[0].was, r.judge.place, elf.region, data.region, left))
              && vm.regions[..|old(vm.regions)|] == old(vm.regions)
              && OthersKept(vm.regions, |old(vm.regions)|, old(mem[..]), mem[..])
              && ((forall q | q in rs :: !Names(q, "elf")) ==>
                    elf.Abs().table == map[] && Left(mem[..], elf.region, left))
              && ((forall q | q in rs :: !Names(q, "data")) ==>
                    data.Abs().table == map[] && Left(mem[..], data.region, left))
  {
    hide I.Working, J.Confined, Put, OthersKept, WellFormed, I.Settled, RegionKept, Traced, I.SetUp, GoesOn, Left,
        Names, I.Sized, J.Consistent, Answered, Asked, D.DuckCache.Abs, Memory.Valid, I.RegionsApart;
    t := Trace([], [], []);
    NothingAnswered();
    r := I.Init(vm, elf, data, mem, tscFreq, left);
    if r.Fatal? {
      return;
    }
    ghost var k, was := |old(vm.regions)|, mem[..];
    SetUpOthers(vm, r.judge, elf, data, k, old(mem[..]), left);
    CachesApart(r.judge, elf, data);
    SetUpLeft(old(mem[..]), mem[..], r.judge.place, elf.region, data.region, left);
    var rs := asked(r.judge.place.bufferSize);
    ghost var t0 := StartTrace(SiteOf(r.judge, elf, data), mem[..], r.judge.history, elf.Abs(), data.Abs());
    t := Serve(r.judge, elf, data, vm, k, rs, t0);
    OthersKeptChain(vm.regions, k, old(mem[..]), was, mem[..]);
    GoesOnEmpty(t0, t, rs, was, []);
    LeftKept(elf.region, was, mem[..], left);
    LeftKept(data.region, was, mem[..], left);
  }

  /** Region `r` holds what its cache left at set-up. */
  ghost predicate Left(m: seq<byte>, r: Region, left: nat -> byte) {
    r.lo <= r.hi <= |m| && m[r.lo..r.hi] == J.Tape(left, r.lo, r.hi - r.lo)
  }

  lemma LeftKept(r: Region, was: seq<byte>, now: seq<byte>, left: nat -> byte)
    requires Left(was, r, left)
    ensures RegionKept(r, was, now) ==> Left(now, r, left)
  {
  }

  lemma SetUpLeft(was: seq<byte>, now: seq<byte>, p: J.Place, elf: Region, data: Region, left: nat -> byte)
    requires I.SetUp(was, now, p, elf, data, left) && I.RegionsApart(elf, data)
    ensures Left(now, elf, left) && Left(now, data, left)
  {
    hide Put;
    var m1 := Put(was, p.buffer, seq(p.bufferSize, _ => 0));
    var m2 := I.Scribbled(m1, elf, left);
    PutReads(m1, elf.lo, J.Tape(left, elf.lo, elf.hi - elf.lo));
    PutReads(m2, data.lo, J.Tape(left, data.lo, data.hi - data.lo));
    I.ScribbledElsewhere(m2, data, left, elf.lo, elf.hi);
  }

  lemma CachesApart(j: J.Judge, elf: D.DuckCache, data: D.DuckCache)
    requires I.Working(j, elf, data)
    ensures I.RegionsApart(elf.region, data.region)
  {
  }

  lemma NothingAnswered()
    ensures Answered([]) == []
  {
  }

  lemma StartTrace(a: Site, mem: seq<byte>, h: seq<J.Event>, elf: Cache, data: Cache) returns (t: Trace)
    requires elf.table == map[] && data.table == map[]
    ensures Traced(t, a, mem, h, elf, data) && t.log == []
  {
    t := Trace([], [elf], [data]);
  }

  lemma GoesOnEmpty(t0: Trace, t: Trace, rs: seq<Request>, was: seq<byte>, h: seq<J.Event>)
    requires GoesOn(t0, t, rs, was, h) && t0.log == []
    ensures |t.log| == |rs| && forall i | 0 <= i < |rs| :: t.log[i].request == rs[i]
    ensures rs != [] ==> t.log[0].was == was && t.log[0].before == h
  {
  }

  /** Clearing the buffer and setting up the caches touches no other region. */
  lemma SetUpOthers(vm: Memory, j: J.Judge, elf: D.DuckCache, data: D.DuckCache, k: nat, was: seq<byte>,
                    left: nat -> byte)
    requires I.Settled(vm, j, elf, data, k) && |was| == j.mem.Length
    requires I.SetUp(was, j.mem[..], j.place, elf.region, data.region, left)
    ensures OthersKept(vm.regions, k, was, j.mem[..])
  {
    hide Put, J.Recorded, J.Counted, J.Confined, I.Scribbled, RegionKept;
    var zeros := seq(j.place.bufferSize, _ => 0 as byte);
    var m1 := Put(was, j.place.buffer + 0, zeros);
    var m2 := I.Scribbled(m1, elf.region, left);
    J.PutConfined(was, j.place, 0, zeros);
    forall i | 0 <= i < |vm.regions| && (i < k || k + 2 < i)
      ensures RegionKept(vm.regions[i], was, j.mem[..])
    {
      var r := vm.regions[i];
      I.RegionBounds(vm, i);
      OtherRegionsUntouched(was, m1, j.place, r);
      ScribbledKeeps(m1, elf.region, left, r);
      ScribbledKeeps(m2, data.region, left, r);
      RegionKeptChain(r, was, m1, m2);
      RegionKeptChain(r, was, m2, j.mem[..]);
    }
  }
}
