/**
 The inside of a DuckCache as values: page chains, the free list and the sorted object table,
 with the moves that eviction and insertion make on them.
 */
module CacheModel {
  import opened Machine
  import opened CacheSpec

  /** The null link. A page address is represented by its page number. */
  const NIL: int := -1

  type Content = s: seq<byte> | |s| == CONTENT_SIZE witness seq(CONTENT_SIZE, _ => 0 as byte)

  datatype Page = Page(next: int, content: Content)

  datatype Metadata = Metadata(lastUsed: u64, start: int, len: nat)

  /** A slot of the object table together with the pages its chain runs through. Last use 0 marks a dead slot. */
  datatype Obj = Obj(digest: Digest256, lastUsed: u64, data: seq<byte>, chain: seq<int>) {
    predicate Live() {
      lastUsed != 0
    }
  }

  datatype Arena = Arena(objs: seq<Obj>, free: seq<int>, pages: seq<Page>)

  // ---- Digest order ----

  predicate Less(x: Digest256, y: Digest256) {
    || x.a0 < y.a0
    || (x.a0 == y.a0 && (|| x.a1 < y.a1
                         || (x.a1 == y.a1 && (|| x.a2 < y.a2
                                              || (x.a2 == y.a2 && x.a3 < y.a3)))))
  }

  ghost predicate Sorted(objs: seq<Obj>) {
    forall i, j | 0 <= i < j < |objs| :: Less(objs[i].digest, objs[j].digest)
  }

  // ---- Chains ----

  /** The bytes of `data` that page number `k` of its chain carries. */
  function Chunk(data: seq<byte>, k: nat): (c: seq<byte>)
    ensures |c| <= CONTENT_SIZE
  {
    data[Min(k * CONTENT_SIZE, |data|)..Min((k + 1) * CONTENT_SIZE, |data|)]
  }

  ghost predicate InRange(pages: seq<Page>, s: seq<int>) {
    forall k | 0 <= k < |s| :: 0 <= s[k] < |pages|
  }

  ghost predicate Linked(pages: seq<Page>, s: seq<int>) {
    && InRange(pages, s)
    && forall k | 0 <= k < |s| - 1 :: pages[s[k]].next == s[k + 1]
  }

  ghost predicate Carries(pages: seq<Page>, chain: seq<int>, data: seq<byte>)
    requires InRange(pages, chain)
  {
    forall k | 0 <= k < |chain| :: Chunk(data, k) <= pages[chain[k]].content
  }

  /** The first PagesFor(len) links from the object's start page, and the bytes on them. */
  ghost predicate Holds(pages: seq<Page>, o: Obj) {
    && |o.chain| == PagesFor(|o.data|)
    && Linked(pages, o.chain)
    && Carries(pages, o.chain, o.data)
  }

  function Head(free: seq<int>): int {
    if free == [] then NIL else free[0]
  }

  ghost predicate FreeList(pages: seq<Page>, free: seq<int>) {
    && Linked(pages, free)
    && (free != [] ==> pages[free[|free| - 1]].next == NIL)
  }

  ghost function OwnPages(o: Obj): multiset<int> {
    if o.Live() then multiset(o.chain) else multiset{}
  }

  ghost function LivePages(objs: seq<Obj>): multiset<int> {
    if objs == [] then multiset{}
    else LivePages(objs[..|objs| - 1]) + OwnPages(objs[|objs| - 1])
  }

  ghost function AllPages(n: nat): (m: multiset<int>)
    ensures forall x :: m[x] == if 0 <= x < n then 1 else 0
    ensures |m| == n
  {
    if n == 0 then multiset{} else AllPages(n - 1) + multiset{n - 1}
  }

  /** Every data page is on the free list or in exactly one live chain, and nowhere twice. */
  ghost predicate Partition(s: Arena) {
    multiset(s.free) + LivePages(s.objs) == AllPages(|s.pages|)
  }

  ghost predicate Sound(s: Arena) {
    && Partition(s)
    && FreeList(s.pages, s.free)
    && forall i | 0 <= i < |s.objs| && s.objs[i].Live() :: Holds(s.pages, s.objs[i])
  }

  // ---- Multisets of pages ----

  lemma {:induction false} LivePagesConcat(a: seq<Obj>, b: seq<Obj>)
    ensures LivePages(a + b) == LivePages(a) + LivePages(b)
  {
    if b == [] {
      assert a + b == a;
    } else {
      var init, o := b[..|b| - 1], b[|b| - 1];
      calc {
        LivePages(a + b);
        { assert (a + b)[..|a + b| - 1] == a + init && (a + b)[|a + b| - 1] == o; }
        LivePages(a + init) + OwnPages(o);
        { LivePagesConcat(a, init); }
        LivePages(a) + LivePages(init) + OwnPages(o);
        { Reassociate(LivePages(a), LivePages(init), OwnPages(o)); }
        LivePages(a) + (LivePages(init) + OwnPages(o));
      }
    }
  }

  lemma Reassociate(x: multiset<int>, y: multiset<int>, z: multiset<int>)
    ensures x + y + z == x + (y + z)
    ensures x + y + z == x + z + y
  {
  }

  lemma LivePagesSingle(o: Obj)
    ensures LivePages([o]) == OwnPages(o)
  {
    assert [o][..0] == [];
  }

  lemma LivePagesAround(x: seq<Obj>, o: Obj, y: seq<Obj>)
    ensures LivePages(x + [o] + y) == LivePages(x) + OwnPages(o) + LivePages(y)
  {
    LivePagesConcat(x + [o], y);
    LivePagesConcat(x, [o]);
    LivePagesSingle(o);
  }

  /** Split the table at slot `i`. */
  lemma LivePagesAt(objs: seq<Obj>, i: nat)
    requires i < |objs|
    ensures LivePages(objs) == LivePages(objs[..i]) + OwnPages(objs[i]) + LivePages(objs[i + 1..])
  {
    SplitAround(objs, i);
    LivePagesAround(objs[..i], objs[i], objs[i + 1..]);
  }

  lemma SplitAround(objs: seq<Obj>, i: nat)
    requires i < |objs|
    ensures objs[..i] + [objs[i]] + objs[i + 1..] == objs
  {
  }

  lemma LivePagesUpdate(objs: seq<Obj>, i: nat, o: Obj)
    requires i < |objs|
    ensures LivePages(objs[i := o]) + OwnPages(objs[i]) == LivePages(objs) + OwnPages(o)
  {
    LivePagesAt(objs, i);
    LivePagesAt(objs[i := o], i);
    assert objs[i := o][..i] == objs[..i];
    assert objs[i := o][i + 1..] == objs[i + 1..];
  }

  lemma LivePagesHalves(objs: seq<Obj>, i: nat)
    requires i <= |objs|
    ensures LivePages(objs) == LivePages(objs[..i]) + LivePages(objs[i..])
  {
    SplitHalves(objs, i);
    LivePagesConcat(objs[..i], objs[i..]);
  }

  lemma SplitHalves(objs: seq<Obj>, i: nat)
    requires i <= |objs|
    ensures objs[..i] + objs[i..] == objs
  {
  }

  lemma LivePagesInsert(objs: seq<Obj>, i: nat, o: Obj)
    requires i <= |objs|
    ensures LivePages(objs[..i] + [o] + objs[i..]) == LivePages(objs) + OwnPages(o)
  {
    var x, y := objs[..i], objs[i..];
    LivePagesAround(x, o, y);
    LivePagesHalves(objs, i);
    Reassociate(LivePages(x), OwnPages(o), LivePages(y));
  }

  lemma OwnPagesPair(objs: seq<Obj>, i: nat, j: nat)
    requires i < j < |objs|
    ensures OwnPages(objs[i]) + OwnPages(objs[j]) <= LivePages(objs)
  {
    LivePagesAt(objs, j);
    LivePagesAt(objs[..j], i);
    assert objs[..j][i] == objs[i];
  }

  lemma OccursTwice(s: seq<int>, i: nat, j: nat)
    requires i < j < |s| && s[i] == s[j]
    ensures multiset(s)[s[i]] >= 2
  {
    assert s == s[..j] + s[j..];
    assert s[i] in s[..j] && s[j] in s[j..];
  }

  ghost predicate Distinct(s: seq<int>) {
    forall i, j | 0 <= i < j < |s| :: s[i] != s[j]
  }

  lemma DistinctIfCountedOnce(s: seq<int>, n: nat)
    requires multiset(s) <= AllPages(n)
    ensures Distinct(s)
    ensures forall k | 0 <= k < |s| :: 0 <= s[k] < n
  {
    forall i, j | 0 <= i < j < |s|
      ensures s[i] != s[j]
    {
      if s[i] == s[j] {
        OccursTwice(s, i, j);
      }
    }
    forall k | 0 <= k < |s|
      ensures 0 <= s[k] < n
    {
      assert s[k] in multiset(s);
    }
  }

  ghost predicate Apart(s: seq<int>, t: seq<int>) {
    forall i, j | 0 <= i < |s| && 0 <= j < |t| :: s[i] != t[j]
  }

  lemma ApartIfCountedOnce(s: seq<int>, t: seq<int>, n: nat)
    requires multiset(s) + multiset(t) <= AllPages(n)
    ensures Apart(s, t)
  {
    forall i, j | 0 <= i < |s| && 0 <= j < |t|
      ensures s[i] != t[j]
    {
      assert s[i] in multiset(s) && t[j] in multiset(t);
      var m := multiset(s) + multiset(t);
      assert m[s[i]] <= AllPages(n)[s[i]] <= 1;
    }
  }

  /** Live chains and the free list share no page, and none repeats a page. */
  lemma ChainsApart(s: Arena, i: nat)
    requires Partition(s) && i < |s.objs| && s.objs[i].Live()
    ensures Distinct(s.objs[i].chain)
    ensures Apart(s.objs[i].chain, s.free)
    ensures forall j | 0 <= j < |s.objs| && j != i && s.objs[j].Live() :: Apart(s.objs[i].chain, s.objs[j].chain)
  {
    var n := |s.pages|;
    LivePagesAt(s.objs, i);
    DistinctIfCountedOnce(s.objs[i].chain, n);
    ApartIfCountedOnce(s.objs[i].chain, s.free, n);
    forall j | 0 <= j < |s.objs| && j != i && s.objs[j].Live()
      ensures Apart(s.objs[i].chain, s.objs[j].chain)
    {
      OwnPagesPair(s.objs, Min(i, j), Max(i, j));
      ApartIfCountedOnce(s.objs[i].chain, s.objs[j].chain, n);
    }
  }

  lemma FreeListApart(s: Arena)
    requires Partition(s)
    ensures Distinct(s.free)
    ensures forall i | 0 <= i < |s.objs| && s.objs[i].Live() :: Apart(s.free, s.objs[i].chain)
  {
    DistinctIfCountedOnce(s.free, |s.pages|);
    forall i | 0 <= i < |s.objs| && s.objs[i].Live()
      ensures Apart(s.free, s.objs[i].chain)
    {
      ChainsApart(s, i);
    }
  }

  // ---- Counting pages and slots ----

  ghost function ChainPages(objs: seq<Obj>): nat {
    if objs == [] then 0
    else
      var o := objs[|objs| - 1];
      ChainPages(objs[..|objs| - 1]) + (if o.Live() then |o.chain| else 0)
  }

  lemma {:induction false} ChainPagesCount(objs: seq<Obj>)
    ensures |LivePages(objs)| == ChainPages(objs)
  {
    if objs == [] {
    } else {
      ChainPagesCount(objs[..|objs| - 1]);
    }
  }

  /** Conservation: free pages plus pages in live chains are all the pages there are. */
  lemma PagesConserved(s: Arena)
    requires Partition(s)
    ensures |s.free| + ChainPages(s.objs) == |s.pages|
  {
    ChainPagesCount(s.objs);
    assert |multiset(s.free) + LivePages(s.objs)| == |s.free| + |LivePages(s.objs)|;
  }

  // ---- Evicting one object ----

  /** The victim's last page is linked to the old head of the free list, and the victim's chain goes in front of it. */
  ghost function EvictOne(s: Arena, id: nat): Arena
    requires id < |s.objs| && s.objs[id].chain != [] && InRange(s.pages, s.objs[id].chain)
  {
    var o := s.objs[id];
    var last := o.chain[|o.chain| - 1];
    Arena(s.objs[id := o.(lastUsed := 0)],
          o.chain + s.free,
          s.pages[last := s.pages[last].(next := Head(s.free))])
  }

  lemma HoldsFrame(p: seq<Page>, q: seq<Page>, o: Obj, changed: int)
    requires Holds(p, o) && |p| == |q|
    requires forall k | 0 <= k < |p| && k != changed :: q[k] == p[k]
    requires forall k | 0 <= k < |o.chain| :: o.chain[k] != changed
    ensures Holds(q, o)
  {
    forall k | 0 <= k < |o.chain|
      ensures q[o.chain[k]] == p[o.chain[k]]
    {
    }
  }

  lemma HoldsInRange(pages: seq<Page>, o: Obj)
    requires Holds(pages, o)
    ensures o.chain != [] && InRange(pages, o.chain)
  {
  }

  lemma SpliceLinked(p: seq<Page>, chain: seq<int>, free: seq<int>)
    requires chain != [] && Linked(p, chain) && FreeList(p, free)
    requires Distinct(chain) && Apart(chain, free)
    ensures
      var last := chain[|chain| - 1];
      FreeList(p[last := p[last].(next := Head(free))], chain + free)
  {
    var last := chain[|chain| - 1];
    var q := p[last := p[last].(next := Head(free))];
    var all := chain + free;
    forall k | 0 <= k < |all| - 1
      ensures q[all[k]].next == all[k + 1]
    {
      if k < |chain| - 1 {
        assert all[k] == chain[k] && all[k + 1] == chain[k + 1];
      } else if k == |chain| - 1 {
        assert all[k + 1] == free[0];
      } else {
        assert all[k] == free[k - |chain|] && all[k + 1] == free[k + 1 - |chain|];
      }
    }
  }

  lemma EvictOnePartition(s: Arena, id: nat)
    requires Sound(s) && id < |s.objs| && s.objs[id].Live()
    ensures Partition(EvictOne(s, id))
  {
    hide LivePages;
    var o := s.objs[id];
    var dead := s.objs[id := o.(lastUsed := 0)];
    LivePagesUpdate(s.objs, id, o.(lastUsed := 0));
    calc {
      multiset(o.chain + s.free) + LivePages(dead);
      multiset(o.chain) + multiset(s.free) + LivePages(dead);
      { Reassociate(multiset(s.free), LivePages(dead), multiset(o.chain));
        Reassociate(multiset(o.chain), multiset(s.free), LivePages(dead)); }
      multiset(s.free) + (LivePages(dead) + multiset(o.chain));
      multiset(s.free) + LivePages(s.objs);
    }
  }

  lemma EvictOneSound(s: Arena, id: nat)
    requires Sound(s) && id < |s.objs| && s.objs[id].Live()
    ensures Sound(EvictOne(s, id))
  {
    hide Partition, Linked, Carries, FreeList, Distinct;
    var o := s.objs[id];
    HoldsInRange(s.pages, o);
    var t := EvictOne(s, id);
    ChainsApart(s, id);
    SpliceLinked(s.pages, o.chain, s.free);
    EvictOnePartition(s, id);
    forall j | 0 <= j < |t.objs| && t.objs[j].Live()
      ensures Holds(t.pages, t.objs[j])
    {
      assert j != id && Apart(o.chain, s.objs[j].chain);
      HoldsFrame(s.pages, t.pages, s.objs[j], o.chain[|o.chain| - 1]);
    }
  }

  // ---- Compaction ----

  ghost function LiveOnly(objs: seq<Obj>): seq<Obj> {
    if objs == [] then []
    else
      var o := objs[|objs| - 1];
      LiveOnly(objs[..|objs| - 1]) + (if o.Live() then [o] else [])
  }

  lemma LiveOnlyNext(objs: seq<Obj>, i: nat)
    requires i < |objs|
    ensures LiveOnly(objs[..i + 1]) == LiveOnly(objs[..i]) + (if objs[i].Live() then [objs[i]] else [])
  {
    assert objs[..i + 1][..i] == objs[..i];
  }

  ghost predicate AllLive(objs: seq<Obj>) {
    forall i | 0 <= i < |objs| :: objs[i].Live()
  }

  lemma {:induction false} LiveOnlyMembers(objs: seq<Obj>)
    ensures AllLive(LiveOnly(objs)) && |LiveOnly(objs)| <= |objs|
    ensures forall o :: o in LiveOnly(objs) <==> o in objs && o.Live()
  {
    if objs == [] {
    } else {
      LiveOnlyMembers(objs[..|objs| - 1]);
      assert objs == objs[..|objs| - 1] + [objs[|objs| - 1]];
    }
  }

  lemma {:induction false} LiveOnlyPages(objs: seq<Obj>)
    ensures LivePages(LiveOnly(objs)) == LivePages(objs)
  {
    if objs == [] {
    } else {
      var init, o := objs[..|objs| - 1], objs[|objs| - 1];
      LiveOnlyPages(init);
      if o.Live() {
        LivePagesConcat(LiveOnly(init), [o]);
        LivePagesSingle(o);
      } else {
        assert LiveOnly(init) + [] == LiveOnly(init);
      }
    }
  }

  /** Compaction keeps the digest order. */
  lemma {:induction false} LiveOnlySorted(objs: seq<Obj>)
    requires Sorted(objs)
    ensures Sorted(LiveOnly(objs))
  {
    if objs == [] {
    } else {
      var init, o := objs[..|objs| - 1], objs[|objs| - 1];
      LiveOnlySorted(init);
      LiveOnlyMembers(init);
      var l := LiveOnly(init);
      forall i | 0 <= i < |l|
        ensures Less(l[i].digest, o.digest)
      {
        assert l[i] in init;
      }
    }
  }

  lemma {:induction false} LiveOnlyAll(objs: seq<Obj>)
    requires AllLive(objs)
    ensures LiveOnly(objs) == objs
  {
    if objs == [] {
    } else {
      LiveOnlyAll(objs[..|objs| - 1]);
      assert objs == objs[..|objs| - 1] + [objs[|objs| - 1]];
    }
  }

  lemma {:induction false} LiveOnlyConcat(a: seq<Obj>, b: seq<Obj>)
    ensures LiveOnly(a + b) == LiveOnly(a) + LiveOnly(b)
  {
    if b == [] {
      assert a + b == a;
    } else {
      LiveOnlyConcat(a, b[..|b| - 1]);
      assert (a + b)[..|a + b| - 1] == a + b[..|b| - 1];
    }
  }

  /** Killing one live slot shortens the live table by one. */
  lemma LiveOnlyOne(o: Obj)
    ensures LiveOnly([o]) == if o.Live() then [o] else []
  {
    assert [o][..0] == [];
  }

  lemma LiveOnlyEvict(objs: seq<Obj>, id: nat)
    requires id < |objs| && objs[id].Live()
    ensures |LiveOnly(objs[id := objs[id].(lastUsed := 0)])| == |LiveOnly(objs)| - 1
  {
    hide LiveOnly;
    var dead := objs[id := objs[id].(lastUsed := 0)];
    LiveOnlyOne(objs[id]);
    LiveOnlyOne(dead[id]);
    LiveOnlyConcat(objs[..id], [objs[id]]);
    LiveOnlyConcat(objs[..id] + [objs[id]], objs[id + 1..]);
    LiveOnlyConcat(objs[..id], [dead[id]]);
    LiveOnlyConcat(objs[..id] + [dead[id]], objs[id + 1..]);
    assert objs == objs[..id] + [objs[id]] + objs[id + 1..];
    assert dead == objs[..id] + [dead[id]] + objs[id + 1..];
  }

  lemma CompactSound(s: Arena)
    requires Sound(s)
    ensures Sound(s.(objs := LiveOnly(s.objs)))
  {
    LiveOnlyMembers(s.objs);
    LiveOnlyPages(s.objs);
    var l := LiveOnly(s.objs);
    forall i | 0 <= i < |l| && l[i].Live()
      ensures Holds(s.pages, l[i])
    {
      assert l[i] in s.objs;
    }
  }

  // ---- Inserting an object ----

  function Overwrite(was: Content, c: seq<byte>): Content
    requires |c| <= CONTENT_SIZE
  {
    c + was[|c|..]
  }

  /** `q` is `p` after `data` was copied onto the pages of `chain`; links and other pages are as before. */
  ghost predicate Filled(p: seq<Page>, q: seq<Page>, chain: seq<int>, data: seq<byte>)
    requires InRange(p, chain)
  {
    && |q| == |p|
    && (forall k | 0 <= k < |p| && k !in chain :: q[k] == p[k])
    && (forall k | 0 <= k < |chain| ::
          q[chain[k]] == Page(p[chain[k]].next, Overwrite(p[chain[k]].content, Chunk(data, k))))
  }

  ghost predicate Inserted(s: Arena, idx: nat, o: Obj, t: Arena)
    requires |o.chain| <= |s.free| && idx <= |s.objs| && InRange(s.pages, s.free[..|o.chain|])
  {
    && o.chain == s.free[..|o.chain|]
    && t.objs == s.objs[..idx] + [o] + s.objs[idx..]
    && t.free == s.free[|o.chain|..]
    && Filled(s.pages, t.pages, o.chain, o.data)
  }

  lemma FilledHolds(p: seq<Page>, q: seq<Page>, o: Obj)
    requires |o.chain| == PagesFor(|o.data|) && Linked(p, o.chain) && Filled(p, q, o.chain, o.data)
    ensures Holds(q, o)
  {
    forall k | 0 <= k < |o.chain|
      ensures Chunk(o.data, k) <= q[o.chain[k]].content
    {
      assert q[o.chain[k]].content == Chunk(o.data, k) + p[o.chain[k]].content[|Chunk(o.data, k)|..];
    }
    forall k | 0 <= k < |o.chain| - 1
      ensures q[o.chain[k]].next == o.chain[k + 1]
    {
    }
  }

  lemma FilledFrame(p: seq<Page>, q: seq<Page>, chain: seq<int>, data: seq<byte>, o: Obj)
    requires InRange(p, chain) && Filled(p, q, chain, data)
    requires Holds(p, o) && Apart(chain, o.chain)
    ensures Holds(q, o)
  {
    forall k | 0 <= k < |o.chain|
      ensures q[o.chain[k]] == p[o.chain[k]]
    {
    }
  }

  lemma SplitFreeList(p: seq<Page>, q: seq<Page>, free: seq<int>, n: nat, data: seq<byte>)
    requires n <= |free| && FreeList(p, free) && Distinct(free)
    requires Filled(p, q, free[..n], data)
    ensures Linked(p, free[..n]) && FreeList(q, free[n..])
  {
    var rest := free[n..];
    forall k | 0 <= k < |rest|
      ensures q[rest[k]] == p[rest[k]]
    {
      assert rest[k] == free[n + k];
    }
    forall k | 0 <= k < |rest| - 1
      ensures q[rest[k]].next == rest[k + 1]
    {
      assert rest[k] == free[n + k] && rest[k + 1] == free[n + k + 1];
    }
  }

  lemma InsertPartition(s: Arena, idx: nat, o: Obj, t: Arena)
    requires Partition(s) && idx <= |s.objs| && o.Live() && |t.pages| == |s.pages|
    requires |o.chain| <= |s.free| && o.chain == s.free[..|o.chain|] && t.free == s.free[|o.chain|..]
    requires t.objs == s.objs[..idx] + [o] + s.objs[idx..]
    ensures Partition(t)
  {
    hide LivePages;
    LivePagesInsert(s.objs, idx, o);
    assert s.free == o.chain + t.free;
    calc {
      multiset(t.free) + LivePages(t.objs);
      multiset(t.free) + (LivePages(s.objs) + multiset(o.chain));
      { Reassociate(multiset(t.free), LivePages(s.objs), multiset(o.chain)); }
      multiset(t.free) + multiset(o.chain) + LivePages(s.objs);
      multiset(s.free) + LivePages(s.objs);
    }
  }

  lemma InsertSound(s: Arena, idx: nat, o: Obj, t: Arena)
    requires Sound(s) && idx <= |s.objs| && o.Live()
    requires |o.chain| == PagesFor(|o.data|) <= |s.free|
    requires Inserted(s, idx, o, t)
    ensures Sound(t)
  {
    hide Partition, Linked, Carries, Distinct;
    FreeListApart(s);
    SplitFreeList(s.pages, t.pages, s.free, |o.chain|, o.data);
    FilledHolds(s.pages, t.pages, o);
    InsertPartition(s, idx, o, t);
    forall i | 0 <= i < |t.objs| && t.objs[i].Live()
      ensures Holds(t.pages, t.objs[i])
    {
      if i != idx {
        var j := if i < idx then i else i - 1;
        assert t.objs[i] == s.objs[j];
        assert Apart(s.free, s.objs[j].chain);
        FilledFrame(s.pages, t.pages, o.chain, o.data, s.objs[j]);
      }
    }
  }

  // ---- The table an Arena stands for ----

  ghost function TableOf(objs: seq<Obj>): Table {
    if objs == [] then map[]
    else
      var o := objs[|objs| - 1];
      TableOf(objs[..|objs| - 1])[o.digest := Entry(o.data, o.lastUsed)]
  }

  ghost predicate InSlot(objs: seq<Obj>, i: nat, d: Digest256) {
    i < |objs| && objs[i].digest == d
  }

  /** Every key of the table comes from a slot. */
  lemma {:induction false} TableSlot(objs: seq<Obj>, d: Digest256) returns (i: nat)
    requires d in TableOf(objs)
    ensures InSlot(objs, i, d)
  {
    var n := |objs| - 1;
    if objs[n].digest == d {
      i := n;
    } else {
      i := TableSlot(objs[..n], d);
    }
  }

  /** Every slot of a sorted table is in the table under its digest, with its own bytes and time stamp. */
  lemma {:induction false} TableAt(objs: seq<Obj>, i: nat)
    requires Sorted(objs) && i < |objs|
    ensures objs[i].digest in TableOf(objs)
    ensures TableOf(objs)[objs[i].digest] == Entry(objs[i].data, objs[i].lastUsed)
  {
    if i == |objs| - 1 {
    } else {
      TableAt(objs[..|objs| - 1], i);
    }
  }

  lemma LastIsNew(objs: seq<Obj>)
    requires Sorted(objs) && objs != []
    ensures objs[|objs| - 1].digest !in TableOf(objs[..|objs| - 1])
  {
    var d := objs[|objs| - 1].digest;
    if d in TableOf(objs[..|objs| - 1]) {
      var i := TableSlot(objs[..|objs| - 1], d);
    }
  }

  lemma {:induction false} TableSize(objs: seq<Obj>)
    requires Sorted(objs)
    ensures |TableOf(objs)| == |objs|
  {
    if objs == [] {
    } else {
      TableSize(objs[..|objs| - 1]);
      LastIsNew(objs);
    }
  }

  lemma {:induction false} TablePages(objs: seq<Obj>)
    requires Sorted(objs) && AllLive(objs)
    requires forall i | 0 <= i < |objs| :: |objs[i].chain| == PagesFor(|objs[i].data|)
    ensures PagesUsed(TableOf(objs)) == ChainPages(objs)
  {
    if objs == [] {
    } else {
      var init, o := objs[..|objs| - 1], objs[|objs| - 1];
      TablePages(init);
      LastIsNew(objs);
      PagesUsedAdd(TableOf(init), o.digest, Entry(o.data, o.lastUsed));
    }
  }
}
