/** Setting up the judge's memory, and the cache requests that read and fill its buffer. */
module JudgeInit {
  import opened Machine
  import opened Bytes
  import opened VirtualMemory
  import opened CacheSpec
  import D = DuckCache
  import J = Judger
  import L = ElfLayout

  const MIB: int := 0x10_0000
  const ELF_CACHE_N: int := 1000
  const DATA_CACHE_N: int := 100_000

  datatype Setup = Fatal | Ready(judge: J.Judge)

  /**
   The judge's buffer is in region number `k` and the caches are in the two after it; programs are below the break, and
   memory reaches the top.
   */
  ghost predicate Settled(vm: Memory, j: J.Judge, elf: D.DuckCache, data: D.DuckCache, k: nat)
    reads vm, j, elf, data
  {
    && vm.Valid() && j.Valid() && k + 2 < |vm.regions| && vm.top <= j.mem.Length
    && j.place.kernelBreak == vm.kernelBreak && j.place.vaddrBreak == vm.vaddrBreak
    && j.place.buffer == vm.regions[k].lo && j.place.buffer + j.place.bufferSize <= vm.regions[k].hi
    && elf.region == vm.regions[k + 1] && data.region == vm.regions[k + 2]
  }

  /** The buffer, cleared. */
  method InitBuffer(vm: Memory, mem: array<byte>, size: u64) returns (r: Option<u64>)
    requires vm.Valid() && vm.top <= mem.Length && size <= W - HUGE_PAGE_SIZE
    modifies vm, mem
    ensures vm.Valid() && vm.kernelBreak == old(vm.kernelBreak) && vm.top == old(vm.top)
    ensures r.Some? <==> old(vm.vaddrBreak) - vm.kernelBreak >= RoundUp64(size, HUGE_PAGE_SIZE)
    ensures r.Some? ==>
              && r.value == vm.vaddrBreak == old(vm.vaddrBreak) - RoundUp64(size, HUGE_PAGE_SIZE)
              && vm.regions == old(vm.regions) + [Region(r.value, old(vm.vaddrBreak))]
              && r.value + size <= old(vm.vaddrBreak) <= mem.Length
              && mem[..] == Put(old(mem[..]), r.value, seq(size, _ => 0))
  {
    hide RoundUp64, Put, HoldsPages;
    r := vm.Allocate(size);
    if r.Some? {
      Blit(seq(size, _ => 0), mem, r.value);
    }
  }

  /** No array of one cache is an array of the other. */
  ghost predicate Apart(c: D.DuckCache, d: D.DuckCache)
    reads c, d
  {
    && c != d && c.objDigest != d.objDigest && c.objMeta != d.objMeta && c.pages != d.pages
    && c.objHash != d.objHash && c.objHash != d.sortIds && c.sortIds != d.objHash && c.sortIds != d.sortIds
  }

  /** Memory after a cache left whatever it likes in its own region. */
  function Scribbled(m: seq<byte>, r: Region, left: nat -> byte): (t: seq<byte>)
    requires r.lo <= r.hi <= |m|
    ensures |t| == |m|
  {
    Put(m, r.lo, J.Tape(left, r.lo, r.hi - r.lo))
  }

  method Scribble(mem: array<byte>, r: Region, left: nat -> byte)
    requires r.lo <= r.hi <= mem.Length
    modifies mem
    ensures mem[..] == Scribbled(old(mem[..]), r, left)
  {
    Blit(J.Tape(left, r.lo, r.hi - r.lo), mem, r.lo);
  }

  /** One cache, which writes its tables and page links into its region. */
  method InitCache(vm: Memory, c: D.DuckCache, n: u64, size: u64, mem: array<byte>, left: nat -> byte)
      returns (ok: bool)
    requires vm.Valid() && vm.vaddrBreak <= L.USER_LIMIT && vm.top <= mem.Length
    requires n >= 1 && D.TableBytes(n) <= 8 * MIB && 16 * MIB <= size <= W - HUGE_PAGE_SIZE
    modifies vm, c, mem
    ensures vm.Valid() && vm.kernelBreak == old(vm.kernelBreak) && vm.top == old(vm.top)
    ensures ok <==> old(vm.vaddrBreak) - vm.kernelBreak >= RoundUp64(size, HUGE_PAGE_SIZE)
    ensures ok ==>
              && c.Valid() && c.Abs().table == map[] && c.Abs().maxObjects == n
              && vm.regions == old(vm.regions) + [c.region] && c.region == Region(vm.vaddrBreak, old(vm.vaddrBreak))
              && old(vm.vaddrBreak) - vm.vaddrBreak == RoundUp64(size, HUGE_PAGE_SIZE)
              && c.region.hi <= mem.Length && mem[..] == Scribbled(old(mem[..]), c.region, left)
    ensures ok ==> fresh(c.objHash) && fresh(c.objDigest) && fresh(c.objMeta) && fresh(c.sortIds) && fresh(c.pages)
  {
    hide D.DuckCache.Valid, D.TableBytes, RoundUp64, Scribbled;
    BreaksOrdered(vm);
    var r := c.Init(vm, n, size);
    if r != D.Ready {
      return false;
    }
    Scribble(mem, c.region, left);
    return true;
  }

  /** Both caches, each in its own region. */
  method InitCaches(vm: Memory, elf: D.DuckCache, data: D.DuckCache, large: bool, mem: array<byte>, left: nat -> byte)
      returns (ok: bool)
    requires vm.Valid() && elf != data && vm.vaddrBreak <= L.USER_LIMIT && vm.top <= mem.Length
    modifies vm, elf, data, mem
    ensures vm.Valid() && vm.kernelBreak == old(vm.kernelBreak) && vm.top == old(vm.top)
    ensures ok <==> old(vm.vaddrBreak) - vm.kernelBreak >= 256 * MIB + (if large then 8192 * MIB else 256 * MIB)
    ensures ok ==>
              && elf.Valid() && data.Valid() && elf.Abs().table == map[] && data.Abs().table == map[]
              && elf.Abs().maxObjects == ELF_CACHE_N && data.Abs().maxObjects == DATA_CACHE_N
              && elf.region.hi - elf.region.lo == 256 * MIB
              && data.region.hi - data.region.lo == (if large then 8192 * MIB else 256 * MIB)
              && Apart(elf, data) && vm.regions == old(vm.regions) + [elf.region, data.region]
              && elf.region.lo <= elf.region.hi <= mem.Length && data.region.lo <= data.region.hi <= mem.Length
              && mem[..] == Scribbled(Scribbled(old(mem[..]), elf.region, left), data.region, left)
    ensures ok ==> fresh(elf.objHash) && fresh(elf.objDigest) && fresh(elf.objMeta) && fresh(elf.sortIds)
    ensures ok ==> fresh(data.objHash) && fresh(data.objDigest) && fresh(data.objMeta) && fresh(data.sortIds)
    ensures ok ==> fresh(elf.pages) && fresh(data.pages)
  {
    hide D.DuckCache.Valid, D.TableBytes, RoundUp64, Scribbled, Memory.Valid;
    SizesRounded();
    TablesSmall();
    BreaksOrdered(vm);
    ok := InitCache(vm, elf, ELF_CACHE_N, 256 * MIB, mem, left);
    if ok {
      BreaksOrdered(vm);
      ok := InitCache(vm, data, DATA_CACHE_N, if large then 8192 * MIB else 256 * MIB, mem, left);
    }
  }

  /**
   Judger::init: buffer, ELF cache and data cache, largest sizes if they fit, else the small ones. `left` is what the
   caches leave in their regions.
   */
  method Init(vm: Memory, elf: D.DuckCache, data: D.DuckCache, mem: array<byte>, tscFreq: u64, left: nat -> byte)
      returns (r: Setup)
    requires vm.Valid() && elf != data && vm.vaddrBreak <= L.USER_LIMIT && vm.top <= mem.Length
    modifies vm, elf, data, mem
    ensures vm.Valid() && vm.kernelBreak == old(vm.kernelBreak)
    ensures r.Ready? <==> old(vm.vaddrBreak) - vm.kernelBreak >= 1024 * MIB
    ensures r.Ready? ==>
              && Working(r.judge, elf, data) && elf.Abs().table == map[] && data.Abs().table == map[]
              && |vm.regions| == |old(vm.regions)| + 3 && vm.regions[..|old(vm.regions)|] == old(vm.regions)
              && Settled(vm, r.judge, elf, data, |old(vm.regions)|) && r.judge.mem == mem && r.judge.history == []
              && elf.Abs().maxObjects == 1000 && data.Abs().maxObjects == 100_000
              && Sized(r.judge.place, elf.region, data.region, old(vm.vaddrBreak) - vm.kernelBreak >= 14592 * MIB)
              && SetUp(old(mem[..]), mem[..], r.judge.place, elf.region, data.region, left)
    ensures r.Ready? ==> fresh(r.judge)
    ensures r.Ready? ==> fresh(elf.objHash) && fresh(elf.objDigest) && fresh(elf.objMeta) && fresh(elf.sortIds)
    ensures r.Ready? ==> fresh(data.objHash) && fresh(data.objDigest) && fresh(data.objMeta) && fresh(data.sortIds)
    ensures r.Ready? ==> fresh(elf.pages) && fresh(data.pages)
  {
    hide D.DuckCache.Valid, RoundUp64, Put, HoldsPages, J.Recorded, J.Counted, Apart, D.DuckCache.Abs, Settled, Working,
        Memory.Valid, Scribbled;
    SizesRounded();
    BreaksOrdered(vm);
    RoomInPages(vm.vaddrBreak - vm.kernelBreak, 14592 * MIB);
    var large := vm.CanAllocate(14592 * MIB);
    var size := if large then 3072 * MIB else 512 * MIB;
    var buffer := InitBuffer(vm, mem, size);
    if buffer.None? {
      return Fatal;
    }
    var ok := InitCaches(vm, elf, data, large, mem, left);
    if !ok {
      return Fatal;
    }
    var place := J.Place(vm.kernelBreak, vm.vaddrBreak, buffer.value, size, tscFreq);
    ghost var k := |old(vm.regions)|;
    RegionBounds(vm, k);
    var judge := new J.Judge(mem, place);
    NowSettled(vm, judge, elf, data, k);
    NowWorking(vm, judge, elf, data, k);
    return Ready(judge);
  }

  /** The sizes of the three regions: large ones if they all fit with 3 GiB to spare, else small ones. */
  predicate Sized(p: J.Place, elf: Region, data: Region, large: bool) {
    && p.bufferSize == (if large then 3072 * MIB else 512 * MIB)
    && elf.hi - elf.lo == 256 * MIB && data.hi - data.lo == (if large then 8192 * MIB else 256 * MIB)
  }

  /** Memory after init: the buffer is cleared and each cache left what it liked in its region. */
  ghost predicate SetUp(was: seq<byte>, now: seq<byte>, p: J.Place, elf: Region, data: Region, left: nat -> byte) {
    && p.buffer + p.bufferSize <= |was| && elf.lo <= elf.hi <= |was| && data.lo <= data.hi <= |was|
    && now == Scribbled(Scribbled(Put(was, p.buffer, seq(p.bufferSize, _ => 0)), elf, left), data, left)
  }

  lemma NowSettled(vm: Memory, j: J.Judge, elf: D.DuckCache, data: D.DuckCache, k: nat)
    requires vm.Valid() && j.Valid() && k + 2 < |vm.regions| && vm.top <= j.mem.Length
    requires j.place.kernelBreak == vm.kernelBreak && j.place.vaddrBreak == vm.vaddrBreak
    requires j.place.buffer == vm.regions[k].lo && j.place.buffer + j.place.bufferSize <= vm.regions[k].hi
    requires elf.region == vm.regions[k + 1] && data.region == vm.regions[k + 2]
    ensures Settled(vm, j, elf, data, k)
  {
  }

  /** A judge and its two caches, ready for requests, each in its own memory. */
  ghost predicate Working(j: J.Judge, elf: D.DuckCache, data: D.DuckCache)
    reads j, elf, elf.objHash, elf.objDigest, elf.objMeta, elf.pages,
          data, data.objHash, data.objDigest, data.objMeta, data.pages
  {
    && j.Valid() && elf.Valid() && data.Valid() && Apart(elf, data)
    && Beside(j, elf.region) && Beside(j, data.region) && RegionsApart(elf.region, data.region)
  }

  predicate RegionsApart(r: Region, s: Region) {
    r.hi <= s.lo || s.hi <= r.lo
  }

  /** A region of memory above the break that is not the judge's buffer. */
  ghost predicate Beside(j: J.Judge, r: Region)
    reads j
  {
    && j.place.vaddrBreak <= r.lo <= r.hi <= j.mem.Length
    && (r.hi <= j.place.buffer || j.place.buffer + j.place.bufferSize <= r.lo)
  }

  lemma NowWorking(vm: Memory, j: J.Judge, elf: D.DuckCache, data: D.DuckCache, k: nat)
    requires Settled(vm, j, elf, data, k) && elf.Valid() && data.Valid() && Apart(elf, data)
    ensures Working(j, elf, data)
  {
    hide D.DuckCache.Valid, Apart, J.Recorded, J.Counted;
    RegionBounds(vm, k);
    RegionBounds(vm, k + 1);
    RegionBounds(vm, k + 2);
    RegionOrder(vm, k, k + 1);
    RegionOrder(vm, k, k + 2);
    RegionOrder(vm, k + 1, k + 2);
  }

  /** Later regions lie below earlier ones. */
  lemma RegionOrder(vm: Memory, i: nat, j: nat)
    requires vm.Valid() && i < j < |vm.regions|
    ensures vm.regions[j].hi <= vm.regions[i].lo
  {
  }

  /** Every region lies between the break and the top. */
  lemma RegionBounds(vm: Memory, i: nat)
    requires vm.Valid() && i < |vm.regions|
    ensures vm.vaddrBreak <= vm.regions[i].lo <= vm.regions[i].hi <= vm.top
  {
    var last := |vm.regions| - 1;
    assert i < last ==> vm.regions[last].hi <= vm.regions[i].lo;
    assert 0 < i ==> vm.regions[i].hi <= vm.regions[0].lo;
  }

  lemma BreaksOrdered(vm: Memory)
    requires vm.Valid()
    ensures vm.kernelBreak <= vm.vaddrBreak <= vm.top
  {
  }

  lemma SizesRounded()
    ensures RoundUp64(14592 * MIB, HUGE_PAGE_SIZE) == 14592 * MIB && RoundUp64(3072 * MIB, HUGE_PAGE_SIZE) == 3072 * MIB
    ensures RoundUp64(512 * MIB, HUGE_PAGE_SIZE) == 512 * MIB && RoundUp64(256 * MIB, HUGE_PAGE_SIZE) == 256 * MIB
    ensures RoundUp64(8192 * MIB, HUGE_PAGE_SIZE) == 8192 * MIB
  {
  }

  lemma TablesSmall()
    ensures D.TableBytes(ELF_CACHE_N) <= MIB && D.TableBytes(DATA_CACHE_N) <= 8 * MIB
  {
  }

  /** With the 512 MiB that the driver reserves and a 4 MiB kernel, the judge cannot be set up. */
  method InitReserved(elf: D.DuckCache, data: D.DuckCache, mem: array<byte>, tscFreq: u64, left: nat -> byte)
      returns (r: Setup)
    requires elf != data && mem.Length >= 512 * MIB
    modifies elf, data, mem
    ensures r == Fatal
  {
    var vm := new Memory(4 * MIB, 512 * MIB);
    r := Init(vm, elf, data, mem, tscFreq, left);
  }

  // ---- Hexadecimal digests ----

  function HexVal(c: char): (v: Option<nat>)
    ensures v.Some? ==> v.value < 16
  {
    if '0' <= c <= '9' then Some(c as int - '0' as int)
    else if 'a' <= c <= 'f' then Some(c as int - 'a' as int + 10)
    else if 'A' <= c <= 'F' then Some(c as int - 'A' as int + 10)
    else None
  }

  ghost function Pow16(n: nat): nat {
    if n == 0 then 1 else 16 * Pow16(n - 1)
  }

  predicate AllHex(s: string) {
    forall i | 0 <= i < |s| :: HexVal(s[i]).Some?
  }

  /** The number whose digit of weight 16^i is the i-th character. */
  ghost function HexNumber(s: string): nat
    requires AllHex(s)
  {
    if s == [] then 0 else HexNumber(s[..|s| - 1]) + HexVal(s[|s| - 1]).value * Pow16(|s| - 1)
  }

  lemma {:induction false} HexBound(s: string)
    requires AllHex(s)
    ensures HexNumber(s) < Pow16(|s|)
  {
    hide HexVal;
    if s == [] {
    } else {
      var n := |s| - 1;
      HexBound(s[..n]);
      DigitWeight(HexVal(s[n]).value, Pow16(n));
    }
  }

  lemma {:induction false} DigitWeight(v: nat, p: nat)
    requires v < 16
    ensures v * p <= 15 * p
  {
    if p == 0 {
    } else {
      DigitWeight(v, p - 1);
      assert v * p == v * (p - 1) + v;
    }
  }

  /** One word of a digest: or-ing a shifted digit into the free high bits is adding it. */
  method HexWord(s: string) returns (r: Option<u64>)
    requires |s| == 16
    ensures r.Some? <==> AllHex(s)
    ensures r.Some? ==> r.value == HexNumber(s)
  {
    hide HexVal, HexNumber, Pow16;
    HexStart(s);
    var sum, weight := 0, 1;
    for i := 0 to 16
      invariant AllHex(s[..i]) && sum == HexNumber(s[..i]) && weight == Pow16(i)
    {
      var v := HexVal(s[i]);
      if v.None? {
        return None;
      }
      HexStep(s, i);
      sum := sum + v.value * weight;
      weight := weight * 16;
    }
    assert s[..16] == s;
    HexBound(s);
    SixteenDigits();
    return Some(sum);
  }

  lemma HexStart(s: string)
    ensures AllHex(s[..0]) && HexNumber(s[..0]) == 0 && Pow16(0) == 1
  {
  }

  lemma HexStep(s: string, i: nat)
    requires i < |s| && AllHex(s[..i]) && HexVal(s[i]).Some?
    ensures AllHex(s[..i + 1]) && HexNumber(s[..i + 1]) == HexNumber(s[..i]) + HexVal(s[i]).value * Pow16(i)
    ensures Pow16(i + 1) == Pow16(i) * 16
  {
    hide HexVal;
    assert s[..i + 1][..i] == s[..i];
  }

  lemma SixteenDigits()
    ensures Pow16(16) == W
  {
    assert Pow16(4) == 0x1_0000;
    assert Pow16(8) == 0x1_0000 * Pow16(4);
    assert Pow16(12) == 0x1_0000 * Pow16(8);
    assert Pow16(16) == 0x1_0000 * Pow16(12);
  }

  ghost predicate SameValues(s: string, t: string) {
    |s| == |t| && forall i | 0 <= i < |s| :: HexVal(s[i]) == HexVal(t[i])
  }

  lemma HexTop(s: string)
    requires AllHex(s) && s != []
    ensures
      var n := |s| - 1;
      && AllHex(s[..n]) && HexVal(s[n]).Some?
      && HexNumber(s) == HexNumber(s[..n]) + HexVal(s[n]).value * Pow16(n)
  {
    hide HexVal;
  }

  lemma DigitsTop(s: string, t: string)
    requires |s| == |t| > 0
    ensures
      var n := |s| - 1;
      SameValues(s, t) <==> SameValues(s[..n], t[..n]) && HexVal(s[n]) == HexVal(t[n])
  {
    hide HexVal;
    var n := |s| - 1;
    assert s == s[..n] + [s[n]] && t == t[..n] + [t[n]];
  }

  /** Two strings of one length give the same number only if they spell the same digits. */
  lemma {:induction false} HexInjective(s: string, t: string)
    requires AllHex(s) && AllHex(t) && |s| == |t|
    ensures HexNumber(s) == HexNumber(t) <==> SameValues(s, t)
  {
    if s == [] {
    } else {
      HexInjectiveTop(s, t);
      HexInjective(s[..|s| - 1], t[..|t| - 1]);
    }
  }

  lemma HexInjectiveTop(s: string, t: string)
    requires AllHex(s) && AllHex(t) && |s| == |t| > 0
    ensures
      var n := |s| - 1;
      && AllHex(s[..n]) && AllHex(t[..n])
      && (HexNumber(s) == HexNumber(t) <==> HexNumber(s[..n]) == HexNumber(t[..n]) && HexVal(s[n]) == HexVal(t[n]))
      && (SameValues(s, t) <==> SameValues(s[..n], t[..n]) && HexVal(s[n]) == HexVal(t[n]))
  {
    hide HexVal, HexNumber, AllHex, SameValues, Pow16;
    var n := |s| - 1;
    HexTop(s);
    HexTop(t);
    DigitsTop(s, t);
    HexBound(s[..n]);
    HexBound(t[..n]);
    TopDigit(HexNumber(s[..n]), HexVal(s[n]).value, HexNumber(t[..n]), HexVal(t[n]).value, Pow16(n));
  }

  lemma {:induction false} Scale(x: nat, y: nat, p: nat)
    requires x <= y
    ensures x * p <= y * p
  {
    if x == y {
    } else {
      Scale(x, y - 1, p);
      assert y * p == (y - 1) * p + p;
    }
  }

  lemma TopDigit(a: nat, x: nat, b: nat, y: nat, p: nat)
    requires a < p && b < p
    ensures a + x * p == b + y * p <==> a == b && x == y
  {
    if x < y {
      Scale(x + 1, y, p);
    } else if y < x {
      Scale(y + 1, x, p);
    }
  }

  /** digest_from_hex: 64 digits, four words. */
  method DigestFromHex(hex: string) returns (r: Option<Digest256>)
    requires |hex| == 64
    ensures r.Some? <==> AllHex(hex)
    ensures r.Some? ==> IsDigest(hex, r.value)
  {
    hide HexVal, HexNumber;
    var w0 := HexWord(hex[0..16]);
    if w0.None? { return None; }
    var w1 := HexWord(hex[16..32]);
    if w1.None? { return None; }
    var w2 := HexWord(hex[32..48]);
    if w2.None? { return None; }
    var w3 := HexWord(hex[48..64]);
    if w3.None? { return None; }
    assert hex == hex[0..16] + hex[16..32] + hex[32..48] + hex[48..64];
    return Some(Digest256(w0.value, w1.value, w2.value, w3.value));
  }

  ghost predicate IsDigest(hex: string, d: Digest256) {
    && |hex| == 64 && AllHex(hex)
    && d.a0 == HexNumber(hex[0..16]) && d.a1 == HexNumber(hex[16..32])
    && d.a2 == HexNumber(hex[32..48]) && d.a3 == HexNumber(hex[48..64])
  }

  /** Distinct digests for distinct digit values. */
  lemma DigestValues(s: string, t: string, d: Digest256)
    requires IsDigest(s, d) && |t| == 64 && AllHex(t)
    ensures IsDigest(t, d) <==> SameValues(s, t)
  {
    hide HexVal, HexNumber;
    HexInjective(s[0..16], t[0..16]);
    HexInjective(s[16..32], t[16..32]);
    HexInjective(s[32..48], t[32..48]);
    HexInjective(s[48..64], t[48..64]);
    assert s == s[0..16] + s[16..32] + s[32..48] + s[48..64];
    assert t == t[0..16] + t[16..32] + t[32..48] + t[48..64];
  }

  /** Lower-case form of a hexadecimal letter; any other character is itself. */
  function Lower(c: char): char {
    if 'A' <= c <= 'F' then (c as int - 'A' as int + 'a' as int) as char else c
  }

  /** The same characters but for letter case. */
  ghost predicate SameDigits(s: string, t: string) {
    |s| == |t| && forall i | 0 <= i < |s| :: Lower(s[i]) == Lower(t[i])
  }

  /** Distinct digests for distinct digit strings: letter case is all that may differ. */
  lemma DigestInjective(s: string, t: string, d: Digest256)
    requires IsDigest(s, d) && |t| == 64 && AllHex(t)
    ensures IsDigest(t, d) <==> SameDigits(s, t)
  {
    hide HexVal, Lower, HexNumber;
    DigestValues(s, t, d);
    forall i | 0 <= i < 64
      ensures HexVal(s[i]) == HexVal(t[i]) <==> Lower(s[i]) == Lower(t[i])
    {
      LowerVal(s[i], t[i]);
    }
  }

  lemma LowerVal(c: char, d: char)
    requires HexVal(c).Some? && HexVal(d).Some?
    ensures HexVal(c) == HexVal(d) <==> Lower(c) == Lower(d)
  {
  }

  // ---- Spelling a digest ----

  /** The sixteen digits. */
  function Digit(v: nat): char
    requires v < 16
  {
    "0123456789abcdef"[v]
  }

  lemma DigitPlace(v: nat)
    requires v < 16
    ensures Digit(v) as int == if v < 10 then '0' as int + v else 'a' as int + v - 10
  {
  }

  /** The value of a hexadecimal character is its place among the digits. */
  lemma HexValPlace(c: char, v: nat)
    requires v < 16
    ensures HexVal(c) == Some(v) <==> Lower(c) == Digit(v)
  {
    hide Digit;
    DigitPlace(v);
  }

  /** No other character has a value. */
  lemma HexValOnly(c: char)
    ensures HexVal(c).Some? <==> exists v: nat :: v < 16 && Lower(c) == Digit(v)
  {
    hide HexVal, Digit, Lower;
    if HexVal(c).Some? {
      HexValPlace(c, HexVal(c).value);
    }
    if v: nat :| v < 16 && Lower(c) == Digit(v) {
      HexValPlace(c, v);
    }
  }

  /** The lowest `n` hexadecimal digits of `v`, lowest first. */
  function HexChars(v: nat, n: nat): (s: string)
    ensures |s| == n
  {
    if n == 0 then [] else [Digit(v % 16)] + HexChars(v / 16, n - 1)
  }

  function HexOf(d: Digest256): (s: string)
    ensures |s| == 64
  {
    HexChars(d.a0, 16) + HexChars(d.a1, 16) + HexChars(d.a2, 16) + HexChars(d.a3, 16)
  }

  lemma {:induction false} HexHead(s: string)
    requires s != [] && AllHex(s)
    ensures AllHex(s[1..]) && HexVal(s[0]).Some? && HexNumber(s) == HexVal(s[0]).value + 16 * HexNumber(s[1..])
  {
    hide HexVal, HexNumber, AllHex, Pow16;
    HexTop(s);
    var n := |s| - 1;
    if n == 0 {
      SingleDigit(s);
    } else {
      HexHead(s[..n]);
      TailHex(s);
      HexTop(s[1..]);
      assert s[..n][1..] == s[1..][..n - 1] && s[..n][0] == s[0] && s[1..][n - 1] == s[n];
      WeightUp(HexVal(s[n]).value, n);
    }
  }

  lemma SingleDigit(s: string)
    requires |s| == 1 && AllHex(s)
    ensures AllHex(s[1..]) && HexVal(s[0]).Some? && HexNumber(s) == HexVal(s[0]).value && HexNumber(s[1..]) == 0
  {
    hide HexVal;
    assert s[..0] == [] && Pow16(0) == 1;
  }

  lemma TailHex(s: string)
    requires s != [] && AllHex(s)
    ensures AllHex(s[1..])
  {
    hide HexVal;
  }

  lemma WeightUp(v: nat, n: nat)
    requires n > 0
    ensures v * Pow16(n) == 16 * (v * Pow16(n - 1))
  {
    var p := Pow16(n - 1);
    assert v * (16 * p) == 16 * (v * p);
  }

  lemma {:induction false} HexCharsNumber(v: nat, n: nat)
    requires v < Pow16(n)
    ensures AllHex(HexChars(v, n)) && HexNumber(HexChars(v, n)) == v
  {
    hide HexVal, HexNumber, Digit, Lower;
    var s := HexChars(v, n);
    if n == 0 {
      EmptyNumber();
    } else {
      HexCharsNumber(v / 16, n - 1);
      LowerDigit(v % 16);
      HexValPlace(Digit(v % 16), v % 16);
      assert s[1..] == HexChars(v / 16, n - 1);
      assert AllHex(s);
      HexHead(s);
    }
  }

  lemma EmptyNumber()
    ensures AllHex([]) && HexNumber([]) == 0
  {
  }

  lemma LowerDigit(v: nat)
    requires v < 16
    ensures Lower(Digit(v)) == Digit(v)
  {
    hide Digit;
    DigitPlace(v);
  }

  /** Every digest is read back from its own spelling, so every word and digit is where it belongs. */
  lemma HexRoundTrip(d: Digest256)
    ensures AllHex(HexOf(d)) && IsDigest(HexOf(d), d)
  {
    hide HexVal, HexNumber, HexChars;
    var s := HexOf(d);
    SixteenDigits();
    HexCharsNumber(d.a0, 16);
    HexCharsNumber(d.a1, 16);
    HexCharsNumber(d.a2, 16);
    HexCharsNumber(d.a3, 16);
    assert s[0..16] == HexChars(d.a0, 16) && s[16..32] == HexChars(d.a1, 16);
    assert s[32..48] == HexChars(d.a2, 16) && s[48..64] == HexChars(d.a3, 16);
    FourParts(s);
  }

  lemma FourParts(s: string)
    requires |s| == 64 && AllHex(s[0..16]) && AllHex(s[16..32]) && AllHex(s[32..48]) && AllHex(s[48..64])
    ensures AllHex(s)
  {
    hide HexVal;
    assert s == s[0..16] + s[16..32] + s[32..48] + s[48..64];
  }

  /** The digest that 64 hexadecimal digits spell. */
  ghost function DigestOf(hex: string): (d: Digest256)
    requires |hex| == 64 && AllHex(hex)
    ensures IsDigest(hex, d)
  {
    HexWordBound(hex[0..16]);
    HexWordBound(hex[16..32]);
    HexWordBound(hex[32..48]);
    HexWordBound(hex[48..64]);
    Digest256(HexNumber(hex[0..16]), HexNumber(hex[16..32]), HexNumber(hex[32..48]), HexNumber(hex[48..64]))
  }

  lemma HexWordBound(s: string)
    requires AllHex(s) && |s| == 16
    ensures HexNumber(s) < W
  {
    HexBound(s);
    SixteenDigits();
  }

  // ---- Cache requests ----

  /** `n` bytes of `m` from `at` on, if it has them. */
  ghost function Slice(m: seq<byte>, at: nat, n: nat): seq<byte> {
    if at + n <= |m| then m[at..at + n] else []
  }

  /** A hit changes `n` bytes from `at` on, and whatever the cache changes in its own region. */
  ghost predicate HitEffect(was: seq<byte>, now: seq<byte>, at: nat, n: nat, own: Region, left: nat -> byte) {
    && |was| == |now| && at + n <= |was| && own.lo <= own.hi <= |was|
    && now == Scribbled(Put(was, at, Slice(now, at, n)), own, left)
  }

  /** A cache loads into the buffer and leaves what it likes in its own region. */
  method LoadDigest(j: J.Judge, c: D.DuckCache, d: Digest256, off: u64, len: u64, now: u64, left: nat -> byte)
      returns (ok: bool)
    requires j.Valid() && c.Valid() && Beside(j, c.region) && now != 0 && off + len <= j.place.bufferSize
    modifies j.mem, c`arena, c.objMeta
    ensures j.Valid() && c.Valid()
    ensures LoadSpec(old(c.Abs()), d, len, now, c.Abs(),
                     if ok then Some(Slice(j.mem[..], j.place.buffer + off, len)) else None)
    ensures !ok ==> j.mem[..] == old(j.mem[..])
    ensures ok ==> HitEffect(old(j.mem[..]), j.mem[..], j.place.buffer + off, len, c.region, left)
  {
    hide LoadSpec, D.DuckCache.Valid, Scribbled, J.Recorded, J.Counted, Put;
    ghost var at := j.place.buffer + off;
    PutNothing(j.mem[..], at);
    ok := c.Load(d, j.mem, j.place.buffer + off, len, now);
    if ok {
      ghost var got := j.mem[..];
      ScribbledElsewhere(got, c.region, left, at, at + len);
      Scribble(j.mem, c.region, left);
      assert Slice(j.mem[..], at, len) == got[at..at + len];
    }
  }

  /**
   load_cache on the cache that was named: on a hit the buffer holds the object, the judge result is cleared, and the
   cache leaves what it likes in its own region.
   */
  method LoadCache(j: J.Judge, c: D.DuckCache, off: u64, len: u64, hex: string, now: u64, left: nat -> byte)
      returns (ok: bool)
    requires j.Valid() && c.Valid() && Beside(j, c.region) && now != 0 && |hex| == 64
    requires off + len <= j.place.bufferSize
    modifies j`judgeSeq, j`result, j`cleared, j`history, j.mem, c`arena, c.objMeta
    ensures j.Valid() && c.Valid()
    ensures !AllHex(hex) ==> !ok && c.Abs() == old(c.Abs())
    ensures forall d | IsDigest(hex, d) ::
              LoadSpec(old(c.Abs()), d, len, now, c.Abs(),
                       if ok then Some(Slice(j.mem[..], j.place.buffer + off, len)) else None)
    ensures ok ==> j.result == J.NOT_JUDGED && j.history == old(j.history) + [J.Changed]
    ensures !ok ==>
              && j.mem[..] == old(j.mem[..]) && j.result == old(j.result) && j.judgeSeq == old(j.judgeSeq)
              && j.history == old(j.history)
    ensures ok ==> HitEffect(old(j.mem[..]), j.mem[..], j.place.buffer + off, len, c.region, left)
  {
    hide LoadSpec, AllHex, D.DuckCache.Valid, HitEffect, Slice, J.Recorded, J.Counted;
    var d := DigestFromHex(hex);
    if d.None? {
      return false;
    }
    ok := LoadDigest(j, c, d.value, off, len, now, left);
    if ok {
      j.ClearResult();
    }
  }

  lemma ScribbledElsewhere(m: seq<byte>, r: Region, left: nat -> byte, lo: nat, hi: nat)
    requires r.lo <= r.hi <= |m| && lo <= hi <= |m| && (hi <= r.lo || r.hi <= lo)
    ensures Scribbled(m, r, left)[lo..hi] == m[lo..hi]
  {
    hide Put;
    PutElsewhere(m, r.lo, J.Tape(left, r.lo, r.hi - r.lo), lo, hi);
  }

  /**
   store_cache on the cache that was named: the object is the named part of the buffer, and the cache leaves what it
   likes in its own region.
   */
  method StoreCache(j: J.Judge, c: D.DuckCache, off: u64, len: u64, hex: string, now: u64, left: nat -> byte)
      returns (ok: bool)
    requires j.Valid() && c.Valid() && Beside(j, c.region) && now != 0 && |hex| == 64
    requires off + len <= j.place.bufferSize
    modifies j.mem, c`nCur, c`nFree, c`freeList, c`arena, c.objHash, c.objDigest, c.objMeta, c.sortIds, c.pages
    ensures j.Valid() && c.Valid()
    ensures j.mem[..] == if AllHex(hex) then Scribbled(old(j.mem[..]), c.region, left) else old(j.mem[..])
    ensures !AllHex(hex) ==> !ok && c.Abs() == old(c.Abs())
    ensures forall d | IsDigest(hex, d) ::
              StoreSpec(old(c.Abs()), d, Slice(old(j.mem[..]), j.place.buffer + off, len), now, c.Abs(), ok)
  {
    hide StoreSpec, AllHex, D.DuckCache.Valid, Scribbled, J.Recorded, J.Counted;
    var d := DigestFromHex(hex);
    if d.None? {
      return false;
    }
    ok := c.Store(d.value, j.mem[j.place.buffer + off..j.place.buffer + off + len], now);
    Scribble(j.mem, c.region, left);
  }
}
