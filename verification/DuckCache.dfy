/** DuckCache as the kernel runs it: parallel arrays, a page free list and page chains, all updated in place. */
module DuckCache {
  import opened Machine
  import opened CacheSpec
  import opened CacheModel
  import opened CacheEviction
  import opened VirtualMemory
  import opened Bytes

  // ---- Search and sort on arrays ----

  function Word(d: Digest256, i: nat): u64
    requires i < 4
  {
    if i == 0 then d.a0 else if i == 1 then d.a1 else if i == 2 then d.a2 else d.a3
  }

  method CmpDigest(x: Digest256, y: Digest256) returns (r: int)
    ensures r < 0 <==> Less(x, y)
    ensures r > 0 <==> Less(y, x)
    ensures r == 0 <==> x == y
  {
    for i := 0 to 4
      invariant forall j | 0 <= j < i :: Word(x, j) == Word(y, j)
    {
      assert forall j | 0 <= j < i :: Word(x, j) == Word(y, j);
      if Word(x, i) < Word(y, i) {
        WordsDecide(x, y, i);
        return -1;
      }
      if Word(x, i) > Word(y, i) {
        WordsDecide(y, x, i);
        return 1;
      }
    }
    assert Word(x, 0) == Word(y, 0) && Word(x, 1) == Word(y, 1) && Word(x, 2) == Word(y, 2) && Word(x, 3) == Word(y, 3);
    return 0;
  }

  lemma WordsDecide(x: Digest256, y: Digest256, i: nat)
    requires i < 4 && Word(x, i) < Word(y, i)
    requires forall j | 0 <= j < i :: Word(x, j) == Word(y, j)
    ensures Less(x, y) && !Less(y, x) && x != y
  {
    assert i > 0 ==> Word(x, 0) == Word(y, 0);
    assert i > 1 ==> Word(x, 1) == Word(y, 1);
    assert i > 2 ==> Word(x, 2) == Word(y, 2);
  }

  /** std::lower_bound. */
  method LowerBound(a: array<u64>, lo: nat, hi: nat, x: u64) returns (k: nat)
    requires lo <= hi <= a.Length
    requires forall i, j | lo <= i < j < hi :: a[i] <= a[j]
    ensures lo <= k <= hi
    ensures forall i | lo <= i < k :: a[i] < x
    ensures forall i | k <= i < hi :: a[i] >= x
  {
    k := lo;
    var r := hi;
    while k < r
      invariant lo <= k <= r <= hi
      invariant forall i | lo <= i < k :: a[i] < x
      invariant forall i | r <= i < hi :: a[i] >= x
    {
      var mid := (k + r) / 2;
      if a[mid] < x {
        k := mid + 1;
      } else {
        r := mid;
      }
    }
  }

  /** std::upper_bound. */
  method UpperBound(a: array<u64>, lo: nat, hi: nat, x: u64) returns (k: nat)
    requires lo <= hi <= a.Length
    requires forall i, j | lo <= i < j < hi :: a[i] <= a[j]
    ensures lo <= k <= hi
    ensures forall i | lo <= i < k :: a[i] <= x
    ensures forall i | k <= i < hi :: a[i] > x
  {
    k := lo;
    var r := hi;
    while k < r
      invariant lo <= k <= r <= hi
      invariant forall i | lo <= i < k :: a[i] <= x
      invariant forall i | r <= i < hi :: a[i] > x
    {
      var mid := (k + r) / 2;
      if a[mid] <= x {
        k := mid + 1;
      } else {
        r := mid;
      }
    }
  }

  /** The first `n` entries of `ids` name the slots 0 .. n-1, each once. */
  ghost predicate Permutes(ids: seq<u64>) {
    && (forall a | 0 <= a < |ids| :: ids[a] < |ids|)
    && (forall a, b | 0 <= a < b < |ids| :: ids[a] != ids[b])
  }

  ghost predicate ByLastUse(ids: seq<u64>, meta: seq<Metadata>)
    requires forall a | 0 <= a < |ids| :: ids[a] < |meta|
  {
    forall a, b | 0 <= a < b < |ids| :: meta[ids[a]].lastUsed <= meta[ids[b]].lastUsed
  }

  /** std::sort of the slot numbers by last use; the order among equals is left open by the contract. */
  method SortIds(ids: array<u64>, meta: array<Metadata>, n: nat)
    requires n <= ids.Length && n <= meta.Length && n < W
    modifies ids
    ensures Permutes(ids[..n])
    ensures ByLastUse(ids[..n], meta[..])
  {
    for i := 0 to n
      invariant forall a | 0 <= a < i :: ids[a] == a
    {
      ids[i] := i;
    }
    for i := 0 to n
      invariant Permutes(ids[..n])
      invariant ByLastUse(ids[..i], meta[..])
    {
      SinkId(ids, meta, n, i);
    }
  }

  /** Sink ids[i] into the sorted entries before it. */
  method SinkId(ids: array<u64>, meta: array<Metadata>, n: nat, i: nat)
    requires i < n <= ids.Length && n <= meta.Length && n < W
    requires Permutes(ids[..n]) && forall a | 0 <= a < n :: ids[a] < n
    requires ByLastUse(ids[..i], meta[..])
    modifies ids
    ensures Permutes(ids[..n]) && forall a | 0 <= a < n :: ids[a] < n
    ensures ByLastUse(ids[..i + 1], meta[..])
  {
    hide Permutes, ByLastUse, SunkTo;
    var j := i;
    SinkStart(ids[..i], ids[..n], meta[..], i);
    while j > 0 && meta[ids[j]].lastUsed < meta[ids[j - 1]].lastUsed
      invariant 0 <= j <= i
      invariant Permutes(ids[..n])
      invariant forall a | 0 <= a < n :: ids[a] < n
      invariant SunkTo(ids[..n], meta[..], i, j)
    {
      SinkStep(ids[..n], meta[..], i, j);
      SwapIds(ids, n, j);
      j := j - 1;
    }
    SinkEnd(ids[..n], ids[..i + 1], meta[..], i, j);
  }

  /** The entries up to `i` are sorted but for the one at `j`, which may still be smaller than those before it. */
  ghost predicate SunkTo(ids: seq<u64>, meta: seq<Metadata>, i: nat, j: nat)
    requires (forall a | 0 <= a < |ids| :: ids[a] < |meta|) && i < |ids|
  {
    forall a, b | 0 <= a < b <= i && b != j :: meta[ids[a]].lastUsed <= meta[ids[b]].lastUsed
  }

  lemma SinkStart(was: seq<u64>, ids: seq<u64>, meta: seq<Metadata>, i: nat)
    requires (forall a | 0 <= a < |ids| :: ids[a] < |meta|) && i < |ids| && was == ids[..i] && ByLastUse(was, meta)
    ensures SunkTo(ids, meta, i, i)
  {
    forall a, b | 0 <= a < b < i
      ensures meta[ids[a]].lastUsed <= meta[ids[b]].lastUsed
    {
      assert was[a] == ids[a] && was[b] == ids[b];
    }
  }

  lemma SinkStep(was: seq<u64>, meta: seq<Metadata>, i: nat, j: nat)
    requires (forall a | 0 <= a < |was| :: was[a] < |meta|) && 0 < j <= i < |was| && SunkTo(was, meta, i, j)
    requires meta[was[j]].lastUsed < meta[was[j - 1]].lastUsed
    ensures
      var ids := was[j - 1 := was[j]][j := was[j - 1]];
      (forall a | 0 <= a < |ids| :: ids[a] < |meta|) && SunkTo(ids, meta, i, j - 1)
  {
  }

  lemma SinkEnd(all: seq<u64>, ids: seq<u64>, meta: seq<Metadata>, i: nat, j: nat)
    requires (forall a | 0 <= a < |all| :: all[a] < |meta|) && j <= i < |all| && SunkTo(all, meta, i, j)
    requires j > 0 ==> meta[all[j - 1]].lastUsed <= meta[all[j]].lastUsed
    requires ids == all[..i + 1]
    ensures (forall a | 0 <= a < |ids| :: ids[a] < |meta|) && ByLastUse(ids, meta)
  {
    forall a, b | 0 <= a < b < |ids|
      ensures meta[ids[a]].lastUsed <= meta[ids[b]].lastUsed
    {
      assert ids[a] == all[a] && ids[b] == all[b];
      if b == j && a < j - 1 {
        assert meta[all[a]].lastUsed <= meta[all[j - 1]].lastUsed;
      }
    }
  }

  method SwapIds(ids: array<u64>, n: nat, j: nat)
    requires 0 < j < n <= ids.Length && Permutes(ids[..n])
    modifies ids
    ensures Permutes(ids[..n])
    ensures forall a | 0 <= a < n :: ids[a] < n
    ensures ids[..n] == old(ids[..n])[j - 1 := old(ids[j])][j := old(ids[j - 1])]
  {
    ghost var was := ids[..n];
    ids[j - 1], ids[j] := ids[j], ids[j - 1];
    SwapPermutes(was, j);
    assert ids[..n] == was[j - 1 := was[j]][j := was[j - 1]];
  }

  lemma SwapPermutes(s: seq<u64>, j: nat)
    requires Permutes(s) && 0 < j < |s|
    ensures Permutes(s[j - 1 := s[j]][j := s[j - 1]])
  {
  }

  /** memmove of [idx, n) one place up, then a store at idx. */
  method OpenAt<T>(a: array<T>, idx: nat, n: nat, x: T)
    requires idx <= n < a.Length
    modifies a
    ensures forall i | 0 <= i < idx :: a[i] == old(a[i])
    ensures a[idx] == x
    ensures forall i | idx < i <= n :: a[i] == old(a[i - 1])
  {
    var i := n;
    while i > idx
      invariant idx <= i <= n
      invariant forall k | 0 <= k <= i :: a[k] == old(a[k])
      invariant forall k | i < k <= n :: a[k] == old(a[k - 1])
    {
      a[i] := a[i - 1];
      i := i - 1;
    }
    a[idx] := x;
  }

  /** Copy `src` along the free list from its head; returns the link after the last page used. */
  method CopyIn(pages: array<Page>, head: int, ghost free: seq<int>, src: seq<byte>) returns (rest: int)
    requires FreeList(pages[..], free) && Distinct(free)
    requires PagesFor(|src|) <= |free| && head == free[0]
    modifies pages
    ensures Filled(old(pages[..]), pages[..], free[..PagesFor(|src|)], src)
    ensures rest == Head(free[PagesFor(|src|)..])
  {
    ghost var before := pages[..];
    rest := head;
    var cur := 0;
    ghost var k := 0;
    while cur < |src|
      invariant 0 <= k <= PagesFor(|src|) && cur == k * CONTENT_SIZE
      invariant src == [] ==> k == 0
      invariant rest == Head(free[k..])
      invariant pages[..] == CopyPages(before, free, src, k)
      decreases |src| - cur
    {
      var m := Min(|src| - cur, CONTENT_SIZE);
      CopyPagesStep(before, free, src, k);
      assert src[cur..cur + m] == Chunk(src, k);
      pages[rest] := pages[rest].(content := Overwrite(pages[rest].content, src[cur..cur + m]));
      rest := pages[rest].next;
      cur := cur + CONTENT_SIZE;
      k := k + 1;
    }
    if |src| == 0 {
      CopyPagesStep(before, free, src, 0);
      CopyNothing(before, free, src);
      rest := pages[rest].next;
      k := 1;
    }
    assert k == PagesFor(|src|);
    CopyPagesFills(before, free, src, k);
  }

  /** `before` after the first `k` chunks of `src` went onto the first `k` pages of the free list. */
  ghost function CopyPages(before: seq<Page>, free: seq<int>, src: seq<byte>, k: nat): (after: seq<Page>)
    requires k <= |free| && InRange(before, free)
    ensures |after| == |before|
  {
    if k == 0 then before
    else CopyPage(CopyPages(before, free, src, k - 1), free, src, k - 1)
  }

  /** Chunk `k` goes onto page `k` of the free list. */
  ghost function CopyPage(p: seq<Page>, free: seq<int>, src: seq<byte>, k: nat): (q: seq<Page>)
    requires k < |free| && InRange(p, free)
    ensures |q| == |p|
  {
    var x := free[k];
    p[x := p[x].(content := Overwrite(p[x].content, Chunk(src, k)))]
  }

  lemma CopyNothing(before: seq<Page>, free: seq<int>, src: seq<byte>)
    requires free != [] && InRange(before, free) && src == []
    ensures CopyPages(before, free, src, 1) == before
  {
    assert CopyPages(before, free, src, 0) == before;
    assert Overwrite(before[free[0]].content, Chunk(src, 0)) == before[free[0]].content;
  }

  lemma {:induction false} CopyPagesFills(before: seq<Page>, free: seq<int>, src: seq<byte>, k: nat)
    requires k <= |free| && InRange(before, free) && Distinct(free)
    ensures Filled(before, CopyPages(before, free, src, k), free[..k], src)
  {
    hide CopyPage, Overwrite, Chunk, Distinct;
    if k == 0 {
    } else {
      CopyPagesFills(before, free, src, k - 1);
      FilledMore(before, CopyPages(before, free, src, k - 1), free, src, k - 1);
    }
  }

  /** One more page of the list is filled. */
  lemma FilledMore(before: seq<Page>, p: seq<Page>, free: seq<int>, src: seq<byte>, k: nat)
    requires k < |free| && InRange(before, free) && Distinct(free) && Filled(before, p, free[..k], src)
    ensures InRange(before, free[..k + 1]) && Filled(before, CopyPage(p, free, src, k), free[..k + 1], src)
  {
    hide Overwrite, Chunk;
    assert free[..k + 1] == free[..k] + [free[k]];
    assert free[k] !in free[..k];
  }

  /** The next page is still untouched, and its link leads on along the free list. */
  lemma CopyPagesStep(before: seq<Page>, free: seq<int>, src: seq<byte>, k: nat)
    requires k < |free| && FreeList(before, free) && Distinct(free)
    ensures Head(free[k..]) == free[k] && 0 <= free[k] < |before|
    ensures CopyPages(before, free, src, k)[free[k]] == before[free[k]]
    ensures before[free[k]].next == Head(free[k + 1..])
  {
    CopyPagesFills(before, free, src, k);
    assert free[k] !in free[..k];
  }

  // ---- The cache object ----

  ghost function MetaOf(o: Obj): Metadata {
    Metadata(o.lastUsed, Head(o.chain), |o.data|)
  }

  datatype InitResult = Ready | AllocationFailed | TooSmall

  /** Bytes of the four tables in front of the data pages. */
  function TableBytes(n: nat): nat {
    RoundUp(n * 8, PAGE_SIZE) + RoundUp(n * 32, PAGE_SIZE) + RoundUp(n * 24, PAGE_SIZE) + RoundUp(n * 8, PAGE_SIZE)
  }

  /** Where the four tables and the data pages start. */
  datatype Tables = Tables(hashes: nat, digests: nat, metas: nat, ids: nat, pages: nat)

  function TablesFrom(base: nat, n: nat): Tables {
    var digests := base + RoundUp(n * 8, PAGE_SIZE);
    var metas := digests + RoundUp(n * 32, PAGE_SIZE);
    var ids := metas + RoundUp(n * 24, PAGE_SIZE);
    Tables(base, digests, metas, ids, ids + RoundUp(n * 8, PAGE_SIZE))
  }

  /** The words of one entry of each table. */
  function DigestWords(d: Digest256): seq<int> {
    [d.a0, d.a1, d.a2, d.a3]
  }

  function MetaWords(m: Metadata): seq<int> {
    [m.lastUsed, m.start, m.len]
  }

  ghost predicate TableFits(start: nat, next: nat, n: nat, words: nat) {
    start % PAGE_SIZE == 0 && start + n * (8 * words) <= next < start + n * (8 * words) + PAGE_SIZE
  }

  /**
   The tables are page-aligned, follow one another, and each holds `n` entries of 8-byte words and no whole page more;
   the data pages start behind them.
   */
  lemma TablesFit(base: nat, n: nat, hash: u64, d: Digest256, m: Metadata, id: u64)
    requires base % PAGE_SIZE == 0
    ensures
      var t := TablesFrom(base, n);
      && TableFits(t.hashes, t.digests, n, |[hash]|) && TableFits(t.digests, t.metas, n, |DigestWords(d)|)
      && TableFits(t.metas, t.ids, n, |MetaWords(m)|) && TableFits(t.ids, t.pages, n, |[id]|)
      && t.pages % PAGE_SIZE == 0 && t.pages == base + TableBytes(n)
  {
    hide RoundUp;
    var t := TablesFrom(base, n);
    RoundedTight(n * 8);
    RoundedTight(n * 32);
    RoundedTight(n * 24);
    SumPaged(base, RoundUp(n * 8, PAGE_SIZE));
    SumPaged(t.digests, RoundUp(n * 32, PAGE_SIZE));
    SumPaged(t.metas, RoundUp(n * 24, PAGE_SIZE));
    SumPaged(t.ids, RoundUp(n * 8, PAGE_SIZE));
  }

  lemma RoundedTight(x: nat)
    ensures x <= RoundUp(x, PAGE_SIZE) < x + PAGE_SIZE && RoundUp(x, PAGE_SIZE) % PAGE_SIZE == 0
  {
  }

  class DuckCache {
    var nMax: u64
    var nCur: nat
    var freeList: int
    var nFree: nat
    var nTotal: nat
    var objHash: array<u64>
    var objDigest: array<Digest256>
    var objMeta: array<Metadata>
    var sortIds: array<u64>
    var pages: array<Page>
    /** The memory that the tables and pages lie in. */
    var region: Region
    ghost var arena: Arena

    ghost predicate Shape()
      reads `nMax, `nTotal, `objHash, `objDigest, `objMeta, `sortIds, `pages
    {
      && objHash.Length == objDigest.Length == objMeta.Length == sortIds.Length == nMax
      && pages.Length == nTotal
      && objHash != sortIds
    }

    /** Hash, digest and metadata arrays hold the same objects in the same order. */
    ghost predicate InLockstep(objs: seq<Obj>)
      requires Shape()
      reads `nMax, `nTotal, `objHash, `objDigest, `objMeta, `sortIds, `pages, objHash, objDigest, objMeta
    {
      && |objs| <= nMax
      && (forall i | 0 <= i < |objs| :: objHash[i] == objs[i].digest.a0)
      && (forall i | 0 <= i < |objs| :: objDigest[i] == objs[i].digest)
      && (forall i | 0 <= i < |objs| :: objMeta[i] == MetaOf(objs[i]))
    }

    /** The memory holds exactly what `arena` says. */
    ghost predicate Mirrors()
      reads this, objHash, objDigest, objMeta, pages
    {
      && Shape()
      && nCur == |arena.objs| <= nMax
      && InLockstep(arena.objs)
      && pages[..] == arena.pages
      && freeList == Head(arena.free)
    }

    /** What holds at every step, even between eviction and compaction. */
    ghost predicate Tied()
      reads this, objHash, objDigest, objMeta, pages
    {
      Mirrors() && Sorted(arena.objs) && Sound(arena)
    }

    ghost predicate Valid()
      reads this, objHash, objDigest, objMeta, pages
    {
      && Tied()
      && nFree == |arena.free|
      && AllLive(arena.objs)
      && nMax >= 1
    }

    ghost function Abs(): Cache
      reads this
    {
      CacheOf(arena, nMax)
    }

    constructor ()
    {
      nMax, nCur, freeList, nFree, nTotal := 0, 0, NIL, 0, 0;
      objHash, objDigest, objMeta, sortIds, pages := new u64[0], new Digest256[0], new Metadata[0], new u64[0],
          new Page[0];
      region := Region(0, 0);
      arena := Arena([], [], []);
    }

    /**
     init: carve the tables and then data pages out of a fresh region. The last page may end past `cacheSize`
     but never past the region, which is rounded up to 2 MiB.
     */
    method Init(vm: Memory, n: u64, cacheSize: u64) returns (r: InitResult)
      requires vm.Valid() && n >= 1 && cacheSize <= W - HUGE_PAGE_SIZE
      requires vm.vaddrBreak + TableBytes(n) + PAGE_SIZE < W
      modifies this, vm
      ensures vm.Valid() && vm.top == old(vm.top)
      ensures r == AllocationFailed <==> old(vm.vaddrBreak) - vm.kernelBreak < RoundUp64(cacheSize, HUGE_PAGE_SIZE)
      ensures r == TooSmall <==> r != AllocationFailed && cacheSize <= TableBytes(n) + PAGE_SIZE
      ensures r == Ready ==>
                && Valid() && fresh(objHash) && fresh(objDigest) && fresh(objMeta) && fresh(sortIds) && fresh(pages)
                && nMax == n && Abs().table == map[]
                && nFree == nTotal == CeilDiv(cacheSize - TableBytes(n), PAGE_SIZE) >= 2
                && vm.vaddrBreak + TableBytes(n) + nTotal * PAGE_SIZE <= old(vm.vaddrBreak)
                && region == Region(vm.vaddrBreak, old(vm.vaddrBreak))
      ensures vm.kernelBreak == old(vm.kernelBreak)
      ensures r != AllocationFailed ==> old(vm.vaddrBreak) - vm.vaddrBreak == RoundUp64(cacheSize, HUGE_PAGE_SIZE)
      ensures r != AllocationFailed ==> vm.regions == old(vm.regions) + [Region(vm.vaddrBreak, old(vm.vaddrBreak))]
    {
      hide RoundUp, CeilDiv, Valid;
      var top := vm.vaddrBreak;
      var start := vm.Allocate(cacheSize);
      if start.None? {
        return AllocationFailed;
      }
      region := Region(start.value, top);
      var cache: int := start.value;
      var cacheEnd := cache + cacheSize;
      cache := cache + RoundUp(n * 8, PAGE_SIZE);    // hashes
      cache := cache + RoundUp(n * 32, PAGE_SIZE);   // digests
      cache := cache + RoundUp(n * 24, PAGE_SIZE);   // metadata
      cache := cache + RoundUp(n * 8, PAGE_SIZE);    // slot numbers for sorting
      if cache + PAGE_SIZE >= cacheEnd {
        return TooSmall;
      }
      TableBytesPaged(n);
      PagesFit(cacheSize, TableBytes(n));
      Format(n, cache, cacheEnd);
      return Ready;
    }

    /** Fresh tables for `n` objects and one free list over the pages of [cache, cacheEnd). */
    method Format(n: u64, cache: int, cacheEnd: int)
      requires n >= 1 && cache + PAGE_SIZE < cacheEnd
      modifies `nMax, `objHash, `objDigest, `objMeta, `sortIds, `pages, `nTotal, `nCur, `nFree, `freeList, `arena
      ensures fresh(objHash) && fresh(objDigest) && fresh(objMeta) && fresh(sortIds) && fresh(pages)
      ensures Valid() && nMax == n && Abs().table == map[]
      ensures nFree == nTotal == CeilDiv(cacheEnd - cache, PAGE_SIZE)
    {
      hide CeilDiv, Sound, Sorted, FreeList, AllLive, Upto, TableOf, MetaOf;
      NewTables(n);
      var n' := NewPages(cache, cacheEnd);
      nCur, nFree, freeList := 0, n', 0;
      arena := Arena([], Upto(n'), pages[..]);
      AllFree(arena);
    }

    method NewTables(n: u64)
      modifies `nMax, `objHash, `objDigest, `objMeta, `sortIds
      ensures nMax == n == objHash.Length == objDigest.Length == objMeta.Length == sortIds.Length
      ensures objHash != sortIds && fresh(objHash) && fresh(objDigest) && fresh(objMeta) && fresh(sortIds)
    {
      nMax := n;
      objHash := new u64[n];
      objDigest := new Digest256[n];
      objMeta := new Metadata[n];
      sortIds := new u64[n];
    }

    method NewPages(cache: int, cacheEnd: int) returns (n: nat)
      requires cache + PAGE_SIZE < cacheEnd
      modifies `pages, `nTotal
      ensures fresh(pages) && n == pages.Length == nTotal == CeilDiv(cacheEnd - cache, PAGE_SIZE) > 0
      ensures FreeList(pages[..], Upto(n))
    {
      var blank := LinkPages(cache, cacheEnd);
      pages, nTotal, n := blank, blank.Length, blank.Length;
    }

    /** hash searches narrow the range, a scan decides: the result is the lexicographic lower bound and membership. */
    method Find(d: Digest256) returns (found: bool, idx: nat)
      requires Tied()
      ensures idx <= nCur
      ensures forall i | 0 <= i < idx :: Less(arena.objs[i].digest, d)
      ensures forall i | idx <= i < nCur :: !Less(arena.objs[i].digest, d)
      ensures found <==> idx < nCur && arena.objs[idx].digest == d
      ensures found <==> d in TableOf(arena.objs)
      ensures !found ==> SlotFor(arena.objs, idx, d)
    {
      hide Sound, TableOf, MetaOf;
      if nCur == 0 {
        FoundAt(arena.objs, 0, d);
        return false, 0;
      }
      var hash := d.a0;
      var idx1 := LowerBound(objHash, 0, nCur, hash);
      var idx2 := UpperBound(objHash, idx1, nCur, hash);
      idx := idx1;
      while idx < idx2
        invariant idx1 <= idx <= idx2
        invariant forall i | 0 <= i < idx :: Less(arena.objs[i].digest, d)
      {
        var r := CmpDigest(objDigest[idx], d);
        if r >= 0 {
          FoundAt(arena.objs, idx, d);
          return r == 0, idx;
        }
        idx := idx + 1;
      }
      FoundAt(arena.objs, idx, d);
      return false, idx;
    }

    /** load: on success `dst` receives the stored bytes at `off` and nothing else changes there. */
    method Load(d: Digest256, dst: array<byte>, off: nat, len: nat, now: u64) returns (ok: bool)
      requires Valid() && now != 0 && off + len <= dst.Length
      modifies this`arena, objMeta, dst
      ensures Valid()
      ensures LoadSpec(old(Abs()), d, len, now, Abs(), if ok then Some(dst[off..off + len]) else None)
      ensures dst[..] == Put(old(dst[..]), off, if ok then dst[off..off + len] else [])
    {
      hide Sorted, TableOf, Sound, Holds, AllLive, Put;
      PutNothing(dst[..], off);
      var found, idx := Find(d);
      if !found {
        return false;
      }
      ghost var o := arena.objs[idx];
      ResidentAt(arena, idx);
      if objMeta[idx].len != len {
        return false;
      }
      CopyOut(objMeta[idx].start, o, dst, off, len);
      PutReads(old(dst[..]), off, o.data);
      Touch(idx, now);
      return true;
    }

    /** Stamp slot `idx` as used now. */
    method Touch(idx: nat, now: u64)
      requires Valid() && idx < nCur && now != 0
      modifies this`arena, objMeta
      ensures Valid()
      ensures
        var o := old(arena).objs[idx];
        Abs() == old(Abs()).(table := old(Abs()).table[o.digest := Entry(o.data, now)])
    {
      hide Sorted, TableOf, Sound, AllLive;
      ghost var o := arena.objs[idx];
      objMeta[idx] := objMeta[idx].(lastUsed := now);
      RefreshSound(arena, idx, now);
      arena := arena.(objs := arena.objs[idx := o.(lastUsed := now)]);
    }

    /** Follow the chain from `start` and copy `len` bytes out. */
    method CopyOut(start: int, ghost o: Obj, dst: array<byte>, off: nat, len: nat)
      requires Shape() && Holds(pages[..], o) && start == Head(o.chain) && len == |o.data|
      requires off + len <= dst.Length
      modifies dst
      ensures dst[..] == Put(old(dst[..]), off, o.data)
    {
      hide Holds, Put, PagesFor;
      ghost var before := dst[..];
      PutNothing(before, off);
      ChainStart(pages[..], o);
      var addr := start;
      var cur := 0;
      ghost var k := 0;
      while cur < len
        invariant 0 <= k <= |o.chain| && cur == k * CONTENT_SIZE
        invariant k < |o.chain| ==> addr == o.chain[k]
        invariant dst[..] == Put(before, off, o.data[..Min(cur, len)])
        decreases len - cur
      {
        var m := Min(len - cur, CONTENT_SIZE);
        ChunkOnPage(pages[..], o, k, m);
        PutMore(before, off, o.data, cur, m);
        Blit(pages[addr].content[..m], dst, off + cur);
        addr := pages[addr].next;
        cur := cur + CONTENT_SIZE;
        k := k + 1;
      }
      assert o.data[..len] == o.data;
    }

    /** store: see StoreSpec. */
    method Store(d: Digest256, src: seq<byte>, now: u64) returns (ok: bool)
      requires Valid() && now != 0 && |src| + CONTENT_SIZE - 1 < W
      modifies this`nCur, this`nFree, this`freeList, this`arena, objHash, objDigest, objMeta, sortIds, pages
      ensures Valid()
      ensures StoreSpec(old(Abs()), d, src, now, Abs(), ok)
    {
      hide InLockstep, Sound, Sorted, AllLive, TableOf, Eviction, SetOf;
      var found, idx := Find(d);
      if found {
        return true;
      }
      var need := PagesFor(|src|);
      if need > nTotal {
        return false;
      }
      ghost var victims := [];
      if need > nFree || nCur + 1 > nMax {
        victims := Evict(need);
        found, idx := Find(d);
      } else {
        NothingToEvict(arena, nMax, need);
      }
      Insert(d, src, now, idx, need);
      assert StoredAfter(old(Abs()), d, src, now, Abs(), victims);
      return true;
    }

    /** Make room for one object of `need` pages. */
    method Evict(need: nat) returns (ghost victims: seq<Digest256>)
      requires Valid() && need <= nTotal && (need > nFree || nCur + 1 > nMax)
      modifies this`nCur, this`nFree, this`freeList, this`arena, objHash, objDigest, objMeta, sortIds, pages
      ensures Valid() && need <= nFree && nCur + 1 <= nMax
      ensures Eviction(old(Abs()), need, victims)
      ensures Abs() == old(Abs()).(table := old(Abs()).table - SetOf(victims))
    {
      hide Sound, Sorted, Evicted, Eviction, LiveOnly, TableOf, InLockstep, SortedSlots, AllLive, SetOf, Permutes;
      ghost var before := arena;
      SortSlots();
      ghost var ids := sortIds[..nCur];
      var removedObjects, removedPages, prev := EvictVictims(ids, need);
      ghost var after := arena;
      victims := EvictionDone(before, ids, removedObjects, after, prev, nMax, need);
      Compact(removedObjects, removedPages);
    }

    /** Drop the dead slots and settle the counters. */
    method Compact(removedObjects: nat, removedPages: nat)
      requires Mirrors() && nMax >= 1 && removedObjects <= nCur
      requires
        var u := arena.(objs := LiveOnly(arena.objs));
        && Sound(u) && Sorted(u.objs) && AllLive(u.objs)
        && |u.objs| == nCur - removedObjects && |u.free| == nFree + removedPages
      modifies this`nCur, this`nFree, this`arena, objHash, objDigest, objMeta
      ensures Valid() && arena == old(arena).(objs := LiveOnly(old(arena).objs))
      ensures nCur == old(nCur) - removedObjects && nFree == old(nFree) + removedPages
    {
      hide Sound, Sorted, LiveOnly, InLockstep, AllLive;
      Defrag();
      nCur := nCur - removedObjects;
      nFree := nFree + removedPages;
      arena := arena.(objs := LiveOnly(arena.objs));
    }

    /** List the slots by last use. */
    method SortSlots()
      requires Mirrors()
      modifies sortIds
      ensures Mirrors() && SortedSlots(arena.objs, sortIds[..nCur])
    {
      SortIds(sortIds, objMeta, nCur);
      ghost var ids := sortIds[..nCur];
      assert forall a | 0 <= a < |ids| :: objMeta[..][ids[a]].lastUsed == arena.objs[ids[a]].lastUsed;
    }

    /** Splice victims onto the free list in last-use order until there is room; `prev` is the state before the last
        one. */
    method EvictVictims(ghost ids: seq<u64>, need: nat) returns (removedObjects: nat, removedPages: nat,
        ghost prev: Arena)
      requires Valid() && need <= nTotal && (need > nFree || nCur + 1 > nMax)
      requires Permutes(ids) && ids == sortIds[..nCur]
      modifies this`freeList, this`arena, objMeta, pages
      ensures Mirrors()
      ensures 0 < removedObjects <= nCur
      ensures Evicted(old(arena), ids[..removedObjects], arena)
      ensures |arena.free| == nFree + removedPages
      ensures need <= nFree + removedPages && nCur + 1 <= nMax + removedObjects
      ensures Evicted(old(arena), ids[..removedObjects - 1], prev)
      ensures need > |prev.free| || nCur + 1 > nMax + removedObjects - 1
    {
      hide InLockstep, Evicted, Sound, Holds, Sorted, Permutes, EvictOne, AllLive;
      ghost var before := arena;
      prev := arena;
      EvictedNone(before);
      assert ids[..0] == [];
      removedPages := 0;
      removedObjects := 0;
      for i := 0 to nCur
        invariant removedObjects == i
        invariant Mirrors()
        invariant Evicted(before, ids[..i], arena)
        invariant |arena.free| == nFree + removedPages
        invariant need > nFree + removedPages || nCur + 1 > nMax + i
      {
        var id := sortIds[i];
        assert id == ids[i];
        NextVictim(before, ids, i, arena);
        prev := arena;
        var n := EvictSlot(id);
        removedObjects := removedObjects + 1;
        removedPages := removedPages + n;
        if !(need > nFree + removedPages || nCur + 1 > nMax + removedObjects) {
          return;
        }
      }
      EvictedEverything(before, ids, arena);
      assert false;
    }

    /** Kill slot `id` and put its chain in front of the free list; returns the number of pages freed. */
    method EvictSlot(id: nat) returns (n: nat)
      requires Mirrors() && id < nCur && Holds(arena.pages, arena.objs[id])
      modifies this`freeList, this`arena, objMeta, pages
      ensures Mirrors() && arena == EvictOne(old(arena), id)
      ensures n == |old(arena).objs[id].chain|
    {
      ghost var o := arena.objs[id];
      var meta := objMeta[id];
      n := PagesFor(meta.len);
      objMeta[id] := meta.(lastUsed := 0);
      var addr := meta.start;
      for pageId := 1 to n
        invariant addr == o.chain[pageId - 1]
      {
        assert pages[..][addr].next == o.chain[pageId];
        addr := pages[addr].next;
      }
      pages[addr] := pages[addr].(next := freeList);
      freeList := meta.start;
      arena := EvictOne(arena, id);
    }

    /** Compact the three arrays over the dead slots. */
    method Defrag()
      requires Mirrors()
      modifies objHash, objDigest, objMeta
      ensures Shape() && InLockstep(LiveOnly(arena.objs))
    {
      hide LiveOnly, MetaOf;
      ghost var objs := arena.objs;
      ghost var live: seq<Obj> := LiveOnly(objs[..0]);
      LiveOnlyMembers(objs[..0]);
      var j := 0;
      for i := 0 to nCur
        invariant live == LiveOnly(objs[..i]) && j == |live| <= i
        invariant InLockstep(live)
        invariant forall k | i <= k < nCur :: objHash[k] == objs[k].digest.a0
        invariant forall k | i <= k < nCur :: objDigest[k] == objs[k].digest
        invariant forall k | i <= k < nCur :: objMeta[k] == MetaOf(objs[k])
      {
        LiveOnlyNext(objs, i);
        MetaLastUsed(objs[i]);
        if objMeta[i].lastUsed != 0 {
          MoveSlot(live, objs[i], i, j);
          live := live + [objs[i]];
          j := j + 1;
        }
      }
      assert objs[..nCur] == objs;
    }

    /** Copy slot `i` down to slot `j`, right after the slots that hold `live`. */
    method MoveSlot(ghost live: seq<Obj>, ghost o: Obj, i: nat, j: nat)
      requires Shape() && InLockstep(live) && j == |live| <= i < nMax
      requires objHash[i] == o.digest.a0 && objDigest[i] == o.digest && objMeta[i] == MetaOf(o)
      modifies objHash, objDigest, objMeta
      ensures InLockstep(live + [o])
      ensures forall k | j < k < nMax ::
                objHash[k] == old(objHash[k]) && objDigest[k] == old(objDigest[k]) && objMeta[k] == old(objMeta[k])
    {
      objHash[j] := objHash[i];
      objDigest[j] := objDigest[i];
      objMeta[j] := objMeta[i];
    }

    /** Open slot `idx` in all three arrays and describe the new object there. */
    method OpenSlot(ghost objs: seq<Obj>, ghost o: Obj, idx: nat, d: Digest256, meta: Metadata)
      requires Shape() && InLockstep(objs) && idx <= |objs| == nCur < nMax
      requires o.digest == d && MetaOf(o) == meta
      modifies objHash, objDigest, objMeta
      ensures InLockstep(objs[..idx] + [o] + objs[idx..])
    {
      hide MetaOf;
      OpenHash(objs, o, idx, d);
      OpenDigest(objs, o, idx, d);
      OpenMeta(objs, o, idx, meta);
    }

    method OpenHash(ghost objs: seq<Obj>, ghost o: Obj, idx: nat, d: Digest256)
      requires idx <= |objs| == nCur < objHash.Length && o.digest == d
      requires forall i | 0 <= i < |objs| :: objHash[i] == objs[i].digest.a0
      modifies objHash
      ensures
        var all := objs[..idx] + [o] + objs[idx..];
        forall i | 0 <= i < |all| :: objHash[i] == all[i].digest.a0
    {
      SpliceSlots(objs, o, idx);
      OpenAt(objHash, idx, nCur, d.a0);
    }

    method OpenDigest(ghost objs: seq<Obj>, ghost o: Obj, idx: nat, d: Digest256)
      requires idx <= |objs| == nCur < objDigest.Length && o.digest == d
      requires forall i | 0 <= i < |objs| :: objDigest[i] == objs[i].digest
      modifies objDigest
      ensures
        var all := objs[..idx] + [o] + objs[idx..];
        forall i | 0 <= i < |all| :: objDigest[i] == all[i].digest
    {
      SpliceSlots(objs, o, idx);
      OpenAt(objDigest, idx, nCur, d);
    }

    method OpenMeta(ghost objs: seq<Obj>, ghost o: Obj, idx: nat, meta: Metadata)
      requires idx <= |objs| == nCur < objMeta.Length && MetaOf(o) == meta
      requires forall i | 0 <= i < |objs| :: objMeta[i] == MetaOf(objs[i])
      modifies objMeta
      ensures
        var all := objs[..idx] + [o] + objs[idx..];
        forall i | 0 <= i < |all| :: objMeta[i] == MetaOf(all[i])
    {
      hide MetaOf;
      SpliceSlots(objs, o, idx);
      OpenAt(objMeta, idx, nCur, meta);
    }

    /** Take `need` pages off the free list, fill them with `src` and enter the object at `idx`. */
    method Insert(d: Digest256, src: seq<byte>, now: u64, idx: nat, need: nat)
      requires Valid() && now != 0 && SlotFor(arena.objs, idx, d)
      requires need == PagesFor(|src|) <= nFree && nCur + 1 <= nMax
      modifies this`nCur, this`nFree, this`freeList, this`arena, objHash, objDigest, objMeta, pages
      ensures Valid()
      ensures Abs() == old(Abs()).(table := old(Abs()).table[d := Entry(src, now)])
    {
      hide Sound, Sorted, TableOf, Distinct, FreeList, AllLive, SlotFor, Filled, PagesFor, InRange, InLockstep, MetaOf;
      ghost var before := arena;
      ghost var o := Obj(d, now, src, before.free[..need]);
      InsertReady(before, o, idx, freeList);
      OpenSlot(before.objs, o, idx, d, Metadata(now, freeList, |src|));
      nCur := nCur + 1;
      var rest := CopyIn(pages, freeList, before.free, src);
      nFree := nFree - need;
      freeList := rest;
      arena := Arena(before.objs[..idx] + [o] + before.objs[idx..], before.free[need..], pages[..]);
      InsertDone(before, idx, o, pages[..]);
    }
  }

  // ---- Steps used by the methods above ----

  lemma ChainStart(pages: seq<Page>, o: Obj)
    requires Holds(pages, o)
    ensures |o.chain| >= 1 && |o.data| <= |o.chain| * CONTENT_SIZE
  {
  }

  lemma ChunkOnPage(pages: seq<Page>, o: Obj, k: nat, m: nat)
    requires Holds(pages, o) && k * CONTENT_SIZE < |o.data|
    requires m == Min(|o.data| - k * CONTENT_SIZE, CONTENT_SIZE)
    ensures k < |o.chain| && 0 <= o.chain[k] < |pages|
    ensures pages[o.chain[k]].content[..m] == o.data[k * CONTENT_SIZE..k * CONTENT_SIZE + m]
    ensures k + 1 < |o.chain| ==> pages[o.chain[k]].next == o.chain[k + 1]
  {
    assert Chunk(o.data, k) <= pages[o.chain[k]].content;
  }

  /** Link every page of [cache, cacheEnd) to the next one and end the list with a null link. */
  method LinkPages(cache: int, cacheEnd: int) returns (pages: array<Page>)
    requires cache + PAGE_SIZE < cacheEnd
    ensures fresh(pages) && pages.Length == CeilDiv(cacheEnd - cache, PAGE_SIZE) > 0
    ensures FreeList(pages[..], Upto(pages.Length))
  {
    pages := new Page[CeilDiv(cacheEnd - cache, PAGE_SIZE)](_ => Page(NIL, seq(CONTENT_SIZE, _ => 0 as byte)));
    var addr := cache;
    var n := 0;
    while addr + PAGE_SIZE < cacheEnd
      invariant addr == cache + n * PAGE_SIZE < cacheEnd
      invariant 0 <= n < pages.Length
      invariant forall k | 0 <= k < n :: pages[k].next == k + 1
      decreases cacheEnd - addr
    {
      pages[n] := pages[n].(next := n + 1);
      addr := addr + PAGE_SIZE;
      n := n + 1;
    }
    pages[n] := pages[n].(next := NIL);
    n := n + 1;
    assert n == pages.Length;
  }

  ghost function Upto(n: nat): (s: seq<int>)
    ensures |s| == n && forall i | 0 <= i < n :: s[i] == i
  {
    if n == 0 then [] else Upto(n - 1) + [n - 1]
  }

  lemma {:induction false} UptoCounts(n: nat)
    ensures multiset(Upto(n)) == AllPages(n)
  {
    if n == 0 {
    } else {
      UptoCounts(n - 1);
    }
  }

  lemma AllFree(s: Arena)
    requires s.objs == [] && s.free == Upto(|s.pages|) && FreeList(s.pages, s.free)
    ensures Sound(s) && Sorted(s.objs) && AllLive(s.objs) && TableOf(s.objs) == map[]
  {
    UptoCounts(|s.pages|);
  }

  lemma PagesFit(cacheSize: nat, tables: nat)
    requires tables % PAGE_SIZE == 0 && tables + PAGE_SIZE < cacheSize <= W - HUGE_PAGE_SIZE
    ensures CeilDiv(cacheSize - tables, PAGE_SIZE) >= 2
    ensures tables + CeilDiv(cacheSize - tables, PAGE_SIZE) * PAGE_SIZE <= RoundUp(cacheSize, HUGE_PAGE_SIZE)
  {
    hide RoundUp;
    HugeIsPaged(cacheSize);
    var t, k := tables / PAGE_SIZE, RoundUp(cacheSize, HUGE_PAGE_SIZE) / PAGE_SIZE;
    CeilDivLeast(cacheSize - tables, k - t);
  }

  lemma CeilDivLeast(x: nat, k: int)
    requires x <= k * PAGE_SIZE
    ensures CeilDiv(x, PAGE_SIZE) <= k
  {
  }

  lemma TableBytesPaged(n: nat)
    ensures TableBytes(n) % PAGE_SIZE == 0
  {
    hide RoundUp;
    PageRounded(n * 8);
    PageRounded(n * 32);
    PageRounded(n * 24);
    var a, b, c := RoundUp(n * 8, PAGE_SIZE), RoundUp(n * 32, PAGE_SIZE), RoundUp(n * 24, PAGE_SIZE);
    SumPaged(a, b);
    SumPaged(a + b, c);
    SumPaged(a + b + c, a);
  }

  lemma SumPaged(x: nat, y: nat)
    requires x % PAGE_SIZE == 0 && y % PAGE_SIZE == 0
    ensures (x + y) % PAGE_SIZE == 0
  {
  }

  lemma PageRounded(x: nat)
    ensures RoundUp(x, PAGE_SIZE) % PAGE_SIZE == 0
  {
  }

  lemma HugeIsPaged(x: nat)
    ensures RoundUp(x, HUGE_PAGE_SIZE) % PAGE_SIZE == 0 && RoundUp(x, HUGE_PAGE_SIZE) >= x
  {
    var z := x + HUGE_PAGE_SIZE - 1;
    assert RoundUp(x, HUGE_PAGE_SIZE) == z / HUGE_PAGE_SIZE * HUGE_PAGE_SIZE;
  }

  lemma FoundAt(objs: seq<Obj>, idx: nat, d: Digest256)
    requires Sorted(objs) && idx <= |objs|
    requires forall i | 0 <= i < idx :: Less(objs[i].digest, d)
    requires idx < |objs| ==> !Less(objs[idx].digest, d)
    ensures forall i | idx <= i < |objs| :: !Less(objs[i].digest, d)
    ensures (idx < |objs| && objs[idx].digest == d) <==> d in TableOf(objs)
    ensures !(idx < |objs| && objs[idx].digest == d) ==> SlotFor(objs, idx, d)
  {
    if idx < |objs| && objs[idx].digest == d {
      TableAt(objs, idx);
    }
    if d in TableOf(objs) {
      var i := TableSlot(objs, d);
    }
  }

  lemma ResidentAt(s: Arena, idx: nat)
    requires Sound(s) && Sorted(s.objs) && AllLive(s.objs) && idx < |s.objs|
    ensures Holds(s.pages, s.objs[idx]) && s.objs[idx].chain != []
    ensures s.objs[idx].digest in TableOf(s.objs)
    ensures TableOf(s.objs)[s.objs[idx].digest] == Entry(s.objs[idx].data, s.objs[idx].lastUsed)
  {
    TableAt(s.objs, idx);
  }

  lemma RefreshSound(s: Arena, idx: nat, now: u64)
    requires Sound(s) && AllLive(s.objs) && Sorted(s.objs) && idx < |s.objs| && now != 0
    ensures
      var objs := s.objs[idx := s.objs[idx].(lastUsed := now)];
      && Sound(s.(objs := objs)) && AllLive(objs) && Sorted(objs)
      && TableOf(objs) == TableOf(s.objs)[s.objs[idx].digest := Entry(s.objs[idx].data, now)]
  {
    hide Partition, FreeList, Sorted, TableOf, Holds;
    var objs := s.objs[idx := s.objs[idx].(lastUsed := now)];
    RefreshPartition(s, idx, now);
    forall i | 0 <= i < |objs| && objs[i].Live()
      ensures Holds(s.pages, objs[i])
    {
      assert Holds(s.pages, s.objs[i]);
      SamePagesHold(s.pages, s.objs[i], objs[i]);
    }
    RefreshTable(s.objs, idx, now);
  }

  lemma SamePagesHold(pages: seq<Page>, o: Obj, o': Obj)
    requires Holds(pages, o) && o'.chain == o.chain && o'.data == o.data
    ensures Holds(pages, o')
  {
  }

  lemma RefreshPartition(s: Arena, idx: nat, now: u64)
    requires Partition(s) && idx < |s.objs| && s.objs[idx].Live() && now != 0
    ensures Partition(s.(objs := s.objs[idx := s.objs[idx].(lastUsed := now)]))
  {
    hide LivePages;
    var objs := s.objs[idx := s.objs[idx].(lastUsed := now)];
    LivePagesAt(s.objs, idx);
    LivePagesAt(objs, idx);
    assert objs[..idx] == s.objs[..idx] && objs[idx + 1..] == s.objs[idx + 1..];
  }

  lemma RefreshTable(objs: seq<Obj>, idx: nat, now: u64)
    requires Sorted(objs) && idx < |objs|
    ensures
      var after := objs[idx := objs[idx].(lastUsed := now)];
      Sorted(after) && TableOf(after) == TableOf(objs)[objs[idx].digest := Entry(objs[idx].data, now)]
  {
    var after := objs[idx := objs[idx].(lastUsed := now)];
    var t := TableOf(objs)[objs[idx].digest := Entry(objs[idx].data, now)];
    forall d | d in TableOf(after)
      ensures d in t && t[d] == TableOf(after)[d]
    {
      var i := TableSlot(after, d);
      TableAt(after, i);
      TableAt(objs, i);
    }
    forall d | d in t
      ensures d in TableOf(after)
    {
      if d == objs[idx].digest {
        TableAt(after, idx);
      } else {
        var i := TableSlot(objs, d);
        TableAt(after, i);
      }
    }
  }

  lemma InsertReady(s: Arena, o: Obj, idx: nat, head: int)
    requires Sound(s) && SlotFor(s.objs, idx, o.digest)
    requires PagesFor(|o.data|) <= |s.free| && o.chain == s.free[..PagesFor(|o.data|)] && head == Head(s.free)
    ensures FreeList(s.pages, s.free) && Distinct(s.free) && InRange(s.pages, o.chain)
        && |o.chain| == PagesFor(|o.data|)
    ensures s.free != [] && head == s.free[0] && MetaOf(o) == Metadata(o.lastUsed, head, |o.data|)
    ensures idx <= |s.objs|
  {
    FreeListApart(s);
  }

  lemma InsertDone(s: Arena, idx: nat, o: Obj, pages: seq<Page>)
    requires Sound(s) && Sorted(s.objs) && AllLive(s.objs) && SlotFor(s.objs, idx, o.digest) && o.Live()
    requires |o.chain| == PagesFor(|o.data|) <= |s.free| && o.chain == s.free[..|o.chain|]
    requires Filled(s.pages, pages, o.chain, o.data) && |s.pages| == |pages|
    ensures
      var t := Arena(s.objs[..idx] + [o] + s.objs[idx..], s.free[|o.chain|..], pages);
      && Sound(t) && Sorted(t.objs) && AllLive(t.objs)
      && TableOf(t.objs) == TableOf(s.objs)[o.digest := Entry(o.data, o.lastUsed)]
  {
    hide Sorted, TableOf, Filled, Holds, Partition;
    var t := Arena(s.objs[..idx] + [o] + s.objs[idx..], s.free[|o.chain|..], pages);
    InsertSound(s, idx, o, t);
    InsertedTable(s.objs, idx, o);
    SpliceSlots(s.objs, o, idx);
  }

  lemma MetaLastUsed(o: Obj)
    ensures MetaOf(o).lastUsed == o.lastUsed
  {
  }

  lemma SpliceSlots(objs: seq<Obj>, o: Obj, idx: nat)
    requires idx <= |objs|
    ensures
      var all := objs[..idx] + [o] + objs[idx..];
      && |all| == |objs| + 1 && all[idx] == o
      && (forall i | 0 <= i < idx :: all[i] == objs[i])
      && (forall i | idx < i < |all| :: all[i] == objs[i - 1])
  {
  }

  lemma NothingToEvict(s: Arena, maxObjects: nat, need: nat)
    requires Sound(s) && Sorted(s.objs) && AllLive(s.objs)
    requires need <= |s.free| && |s.objs| + 1 <= maxObjects
    ensures Eviction(CacheOf(s, maxObjects), need, [])
    ensures TableOf(s.objs) - SetOf([]) == TableOf(s.objs)
  {
    hide Sound, Sorted, AllLive, TableOf, Eviction;
    EvictedNone(s);
    EvictionFromIds(s, [], s, s, maxObjects, need);
  }

  lemma EvictedEverything(s: Arena, ids: seq<u64>, t: Arena)
    requires |ids| == |s.objs| && Evicted(s, ids[..|s.objs|], t)
    ensures |t.free| == |s.pages|
  {
    assert ids[..|s.objs|] == ids;
    EvictedAll(s, ids, t);
  }

  lemma NextVictim(s: Arena, ids: seq<u64>, i: nat, t: Arena)
    requires Permutes(ids) && i < |ids| == |s.objs| && AllLive(s.objs)
    requires Evicted(s, ids[..i], t)
    ensures ids[i] < |t.objs| == |s.objs| && Holds(t.pages, t.objs[ids[i]])
    ensures Evicted(s, ids[..i + 1], EvictOne(t, ids[i]))
    ensures |EvictOne(t, ids[i]).free| == |t.free| + |t.objs[ids[i]].chain|
  {
    hide Evicted, LiveOnly, Holds, AllLive;
    assert ids[i] !in ids[..i];
    EvictedOneMore(s, ids[..i], t, ids[i]);
    assert ids[..i] + [ids[i]] == ids[..i + 1];
  }

  ghost predicate SortedSlots(objs: seq<Obj>, ids: seq<u64>) {
    && Permutes(ids) && |ids| == |objs|
    && forall a, b | 0 <= a < b < |ids| :: objs[ids[a]].lastUsed <= objs[ids[b]].lastUsed
  }

  lemma InPrefix(ids: seq<u64>, n: nat, b: nat)
    requires n <= |ids| && b < |ids|
    ensures b < n ==> ids[b] in ids[..n]
  {
    var p := ids[..n];
    assert forall a | 0 <= a < n :: p[a] == ids[a];
  }

  lemma PermutesInside(ids: seq<u64>)
    requires Permutes(ids)
    ensures forall a | 0 <= a < |ids| :: ids[a] < |ids|
  {
  }

  /** A prefix of a full sort by last use is ahead of everything else. */
  lemma PrefixOldestFirst(objs: seq<Obj>, ids: seq<u64>, n: nat)
    requires SortedSlots(objs, ids) && n <= |ids|
    ensures OldestFirst(objs, ids[..n])
  {
    hide Permutes;
    PermutesInside(ids);
    var p := ids[..n];
    forall a, j | 0 <= a < |p| && 0 <= j < |objs| && j !in p
      ensures objs[p[a]].lastUsed <= objs[j].lastUsed
    {
      var b := Position(ids, j);
      assert p[a] == ids[a];
      InPrefix(ids, n, b);
    }
  }

  lemma EvictionDone(s: Arena, ids: seq<u64>, n: nat, t: Arena, prev: Arena, maxObjects: nat, need: nat)
      returns (victims: seq<Digest256>)
    requires SortedSlots(s.objs, ids) && 0 < n <= |ids|
    requires Sorted(s.objs) && AllLive(s.objs)
    requires Evicted(s, ids[..n], t) && need <= |t.free| && |s.objs| + 1 <= maxObjects + n
    requires Evicted(s, ids[..n - 1], prev) && (need > |prev.free| || |s.objs| + 1 > maxObjects + n - 1)
    ensures Eviction(CacheOf(s, maxObjects), need, victims)
    ensures
      var u := t.(objs := LiveOnly(t.objs));
      && Sound(u) && Sorted(u.objs) && AllLive(u.objs) && |u.objs| == |s.objs| - n
      && CacheOf(u, maxObjects) == CacheOf(s, maxObjects).(table := TableOf(s.objs) - SetOf(victims))
  {
    var gone: seq<int> := ids[..n];
    victims := DigestsAt(s.objs, gone);
    PrefixOldestFirst(s.objs, ids, n);
    assert gone[..n - 1] == ids[..n - 1];
    EvictionFromIds(s, gone, t, prev, maxObjects, need);
    EvictedTable(s, gone, t);
    EvictedSorted(s, gone, t);
    LiveOnlySorted(t.objs);
    LiveOnlyMembers(t.objs);
    CompactSound(t);
  }

  ghost function Range(n: nat): (r: set<int>)
    ensures forall k :: k in r <==> 0 <= k < n
    ensures |r| == n
  {
    if n == 0 then {} else Range(n - 1) + {n - 1}
  }

  /** A permutation of 0 .. n-1 contains every number below n. */
  lemma Position(ids: seq<u64>, j: nat) returns (b: nat)
    requires Permutes(ids) && j < |ids|
    ensures b < |ids| && ids[b] == j
  {
    DistinctIntsCount(ids);
    if j !in Elements(ids) {
      CountWithin(Elements(ids), Range(|ids|) - {j});
    }
    b :| 0 <= b < |ids| && ids[b] == j;
  }

  ghost function Elements(ids: seq<int>): set<int> {
    set a | 0 <= a < |ids| :: ids[a]
  }

  lemma {:induction false} DistinctIntsCount(ids: seq<int>)
    requires Distinct(ids)
    ensures |Elements(ids)| == |ids|
  {
    if ids == [] {
    } else {
      var n := |ids| - 1;
      DistinctIntsCount(ids[..n]);
      assert Elements(ids) == Elements(ids[..n]) + {ids[n]};
    }
  }

  lemma CountWithin(a: set<int>, b: set<int>)
    requires a <= b
    ensures |a| <= |b|
  {
    assert b * a == a;
    assert |b - a| == |b| - |b * a|;
  }
}
