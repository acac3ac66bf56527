/** What a sequence of evictions and one insertion mean for the table. */
module CacheEviction {
  import opened Machine
  import opened CacheSpec
  import opened CacheModel

  ghost function AfterKilling(o: Obj, killed: bool): Obj {
    if killed then o.(lastUsed := 0) else o
  }

  /** `t` is `s` after the slots `ids` were evicted: the slots are dead, everything else is as it was. */
  ghost predicate Evicted(s: Arena, ids: seq<int>, t: Arena) {
    && (forall i | 0 <= i < |ids| :: 0 <= ids[i] < |s.objs|)
    && Distinct(ids)
    && |t.objs| == |s.objs| && |t.pages| == |s.pages|
    && (forall j | 0 <= j < |s.objs| :: t.objs[j] == AfterKilling(s.objs[j], j in ids))
    && |LiveOnly(t.objs)| == |s.objs| - |ids|
    && Sound(t)
  }

  lemma EvictedNone(s: Arena)
    requires Sound(s) && AllLive(s.objs)
    ensures Evicted(s, [], s)
  {
    LiveOnlyAll(s.objs);
  }

  lemma EvictedOneMore(s: Arena, ids: seq<int>, t: Arena, id: nat)
    requires Evicted(s, ids, t) && AllLive(s.objs)
    requires id < |s.objs| && id !in ids
    ensures |t.objs| == |s.objs| && t.objs[id] == s.objs[id] && Holds(t.pages, t.objs[id])
    ensures Evicted(s, ids + [id], EvictOne(t, id))
    ensures |EvictOne(t, id).free| == |t.free| + |s.objs[id].chain|
  {
    hide Partition, FreeList, Carries, LiveOnly;
    assert t.objs[id] == s.objs[id];
    EvictOneSound(t, id);
    LiveOnlyEvict(t.objs, id);
    var u := EvictOne(t, id);
    forall j | 0 <= j < |s.objs|
      ensures u.objs[j] == AfterKilling(s.objs[j], j in ids + [id])
    {
      assert t.objs[j] == AfterKilling(s.objs[j], j in ids);
    }
  }

  lemma EvictedSorted(s: Arena, ids: seq<int>, t: Arena)
    requires Evicted(s, ids, t) && Sorted(s.objs)
    ensures Sorted(t.objs)
  {
    forall i, j | 0 <= i < j < |t.objs|
      ensures Less(t.objs[i].digest, t.objs[j].digest)
    {
      assert t.objs[i].digest == s.objs[i].digest && t.objs[j].digest == s.objs[j].digest;
    }
  }

  /** With every object gone, every page is free. */
  lemma EvictedAll(s: Arena, ids: seq<int>, t: Arena)
    requires Evicted(s, ids, t) && |ids| == |s.objs|
    ensures |t.free| == |t.pages|
  {
    CompactSound(t);
    PagesConserved(t.(objs := LiveOnly(t.objs)));
  }

  ghost function DigestsAt(objs: seq<Obj>, ids: seq<int>): seq<Digest256>
    requires forall i | 0 <= i < |ids| :: 0 <= ids[i] < |objs|
  {
    seq(|ids|, i requires 0 <= i < |ids| => objs[ids[i]].digest)
  }

  lemma DigestsPrefix(objs: seq<Obj>, ids: seq<int>, n: nat)
    requires forall i | 0 <= i < |ids| :: 0 <= ids[i] < |objs|
    requires n <= |ids|
    ensures DigestsAt(objs, ids)[..n] == DigestsAt(objs, ids[..n])
  {
  }

  lemma VictimDigest(objs: seq<Obj>, ids: seq<int>, j: nat)
    requires forall i | 0 <= i < |ids| :: 0 <= ids[i] < |objs|
    requires Sorted(objs) && j < |objs|
    ensures j in ids <==> objs[j].digest in SetOf(DigestsAt(objs, ids))
  {
    var ds := DigestsAt(objs, ids);
    if j in ids {
      var i :| 0 <= i < |ids| && ids[i] == j;
      assert ds[i] == objs[j].digest;
    }
    if objs[j].digest in ds {
      var i :| 0 <= i < |ds| && ds[i] == objs[j].digest;
      assert ids[i] == j;
    }
  }

  /** Survivors keep digest, bytes and time stamp; victims leave the table. */
  lemma EvictedTable(s: Arena, ids: seq<int>, t: Arena)
    requires Evicted(s, ids, t) && Sorted(s.objs) && AllLive(s.objs)
    ensures TableOf(LiveOnly(t.objs)) == TableOf(s.objs) - SetOf(DigestsAt(s.objs, ids))
  {
    hide Sound, LiveOnly, TableOf, DigestsAt, Distinct;
    var l := LiveOnly(t.objs);
    var left := TableOf(s.objs) - SetOf(DigestsAt(s.objs, ids));
    EvictedSorted(s, ids, t);
    LiveOnlySorted(t.objs);
    LiveOnlyMembers(t.objs);
    forall d | d in TableOf(l)
      ensures d in left && left[d] == TableOf(l)[d]
    {
      var i := TableSlot(l, d);
      TableAt(l, i);
      assert l[i] in t.objs;
      var j :| 0 <= j < |t.objs| && t.objs[j] == l[i];
      TableAt(s.objs, j);
      VictimDigest(s.objs, ids, j);
    }
    forall d | d in left
      ensures d in TableOf(l)
    {
      var j := TableSlot(s.objs, d);
      VictimDigest(s.objs, ids, j);
      assert t.objs[j] == s.objs[j] && t.objs[j] in l;
      var i :| 0 <= i < |l| && l[i] == t.objs[j];
      TableAt(l, i);
    }
  }

  ghost function CacheOf(s: Arena, maxObjects: nat): Cache {
    Cache(TableOf(s.objs), maxObjects, |s.pages|)
  }

  lemma FreePagesAgree(s: Arena)
    requires Sound(s) && Sorted(s.objs) && AllLive(s.objs)
    ensures PagesUsed(TableOf(s.objs)) == |s.pages| - |s.free|
    ensures |TableOf(s.objs)| == |s.objs|
  {
    PagesConserved(s);
    TablePages(s.objs);
    TableSize(s.objs);
  }

  /** The code's page and slot counters decide exactly whether the remaining table is short of room. */
  lemma EvictedShort(s: Arena, ids: seq<int>, t: Arena, maxObjects: nat, need: nat)
    requires Evicted(s, ids, t) && Sorted(s.objs) && AllLive(s.objs)
    ensures Short(CacheOf(s, maxObjects), TableOf(s.objs) - SetOf(DigestsAt(s.objs, ids)), need)
            <==> need > |t.free| || |s.objs| + 1 > maxObjects + |ids|
  {
    hide Sound, LiveOnly, TableOf, DigestsAt, Distinct, Sorted;
    EvictedTable(s, ids, t);
    EvictedSorted(s, ids, t);
    LiveOnlySorted(t.objs);
    LiveOnlyMembers(t.objs);
    CompactSound(t);
    FreePagesAgree(t.(objs := LiveOnly(t.objs)));
  }

  /** `ids` lists slots by increasing last use, ahead of every other slot. */
  ghost predicate OldestFirst(objs: seq<Obj>, ids: seq<int>)
    requires forall i | 0 <= i < |ids| :: 0 <= ids[i] < |objs|
  {
    && (forall a, b | 0 <= a < b < |ids| :: objs[ids[a]].lastUsed <= objs[ids[b]].lastUsed)
    && (forall a, j | 0 <= a < |ids| && 0 <= j < |objs| && j !in ids :: objs[ids[a]].lastUsed <= objs[j].lastUsed)
  }

  lemma VictimsInOrder(s: Arena, ids: seq<int>)
    requires Sorted(s.objs) && Distinct(ids)
    requires forall i | 0 <= i < |ids| :: 0 <= ids[i] < |s.objs|
    requires OldestFirst(s.objs, ids)
    ensures
      var ds, t := DigestsAt(s.objs, ids), TableOf(s.objs);
      && (forall i, j | 0 <= i < j < |ds| :: ds[i] != ds[j])
      && (forall v | v in ds :: v in t)
      && (forall i, j | 0 <= i < j < |ds| :: t[ds[i]].lastUsed <= t[ds[j]].lastUsed)
      && (forall v, x | v in ds && x in t && x !in ds :: t[v].lastUsed <= t[x].lastUsed)
  {
    var ds, t := DigestsAt(s.objs, ids), TableOf(s.objs);
    forall i | 0 <= i < |ds|
      ensures ds[i] in t && t[ds[i]].lastUsed == s.objs[ids[i]].lastUsed
    {
      TableAt(s.objs, ids[i]);
    }
    forall i, j | 0 <= i < j < |ds|
      ensures ds[i] != ds[j]
    {
      assert ids[i] != ids[j];
    }
    forall v, x | v in ds && x in t && x !in ds
      ensures t[v].lastUsed <= t[x].lastUsed
    {
      var i :| 0 <= i < |ds| && ds[i] == v;
      var j := TableSlot(s.objs, x);
      TableAt(s.objs, j);
      VictimDigest(s.objs, ids, j);
    }
  }

  lemma ShortBeforeLast(s: Arena, ids: seq<int>, prev: Arena, maxObjects: nat, need: nat)
    requires Sorted(s.objs) && AllLive(s.objs) && ids != []
    requires forall i | 0 <= i < |ids| :: 0 <= ids[i] < |s.objs|
    requires Evicted(s, ids[..|ids| - 1], prev)
    requires need > |prev.free| || |s.objs| + 1 > maxObjects + |ids| - 1
    ensures
      var ds := DigestsAt(s.objs, ids);
      Short(CacheOf(s, maxObjects), TableOf(s.objs) - SetOf(ds[..|ds| - 1]), need)
  {
    EvictedShort(s, ids[..|ids| - 1], prev, maxObjects, need);
    DigestsPrefix(s.objs, ids, |ids| - 1);
  }

  /** Evicting a shortest sufficient prefix of the last-use order is an Eviction of the specification. */
  lemma EvictionFromIds(s: Arena, ids: seq<int>, t: Arena, prev: Arena, maxObjects: nat, need: nat)
    requires Sorted(s.objs) && AllLive(s.objs)
    requires Evicted(s, ids, t) && OldestFirst(s.objs, ids)
    requires need <= |t.free| && |s.objs| + 1 <= maxObjects + |ids|
    requires ids != [] ==>
               && Evicted(s, ids[..|ids| - 1], prev)
               && (need > |prev.free| || |s.objs| + 1 > maxObjects + |ids| - 1)
    ensures Eviction(CacheOf(s, maxObjects), need, DigestsAt(s.objs, ids))
  {
    var ds := DigestsAt(s.objs, ids);
    assert !Short(CacheOf(s, maxObjects), TableOf(s.objs) - SetOf(ds), need) by {
      EvictedShort(s, ids, t, maxObjects, need);
    }
    if ids != [] {
      ShortBeforeLast(s, ids, prev, maxObjects, need);
    }
    VictimsInOrder(s, ids);
  }

  /** `idx` is where `d` belongs: all digests before it are smaller, all from it on are larger. */
  ghost predicate SlotFor(objs: seq<Obj>, idx: nat, d: Digest256) {
    && idx <= |objs|
    && (forall i | 0 <= i < idx :: Less(objs[i].digest, d))
    && (forall i | idx <= i < |objs| :: Less(d, objs[i].digest))
  }

  lemma SlotInside(objs: seq<Obj>, idx: nat, d: Digest256)
    requires SlotFor(objs, idx, d)
    ensures idx <= |objs| && forall i | 0 <= i < |objs| :: objs[i].digest != d
  {
  }

  lemma InsertedSorted(objs: seq<Obj>, idx: nat, o: Obj)
    requires Sorted(objs) && SlotFor(objs, idx, o.digest)
    ensures Sorted(objs[..idx] + [o] + objs[idx..])
  {
    hide Less;
    var all := objs[..idx] + [o] + objs[idx..];
    forall i, j | 0 <= i < j < |all|
      ensures Less(all[i].digest, all[j].digest)
    {
      assert i < idx ==> all[i] == objs[i];
      assert j > idx ==> all[j] == objs[j - 1];
      assert idx < i ==> all[i] == objs[i - 1];
      assert j < idx ==> all[j] == objs[j];
    }
  }

  /** One digest before and after the insertion. */
  lemma InsertedEntry(objs: seq<Obj>, idx: nat, o: Obj, all: seq<Obj>, d: Digest256)
    requires Sorted(objs) && SlotFor(objs, idx, o.digest) && idx <= |objs|
    requires all == objs[..idx] + [o] + objs[idx..] && Sorted(all)
    ensures d in TableOf(all) <==> d == o.digest || d in TableOf(objs)
    ensures o.digest in TableOf(all) && TableOf(all)[o.digest] == Entry(o.data, o.lastUsed)
    ensures d in TableOf(objs) ==> d != o.digest && TableOf(all)[d] == TableOf(objs)[d]
  {
    hide TableOf, Sorted, SlotFor, Less;
    SlotInside(objs, idx, o.digest);
    assert all[idx] == o;
    TableAt(all, idx);
    if d in TableOf(objs) {
      var j := TableSlot(objs, d);
      var i := if j < idx then j else j + 1;
      assert all[i] == objs[j];
      TableAt(all, i);
      TableAt(objs, j);
    } else if d in TableOf(all) {
      var i := TableSlot(all, d);
      if i != idx {
        var j := if i < idx then i else i - 1;
        assert all[i] == objs[j];
        TableAt(objs, j);
      }
    }
  }

  lemma InsertedTable(objs: seq<Obj>, idx: nat, o: Obj)
    requires Sorted(objs) && SlotFor(objs, idx, o.digest)
    ensures Sorted(objs[..idx] + [o] + objs[idx..])
    ensures TableOf(objs[..idx] + [o] + objs[idx..]) == TableOf(objs)[o.digest := Entry(o.data, o.lastUsed)]
  {
    hide Less, SlotFor, Sorted, TableOf;
    SlotInside(objs, idx, o.digest);
    InsertedSorted(objs, idx, o);
    var all := objs[..idx] + [o] + objs[idx..];
    var t := TableOf(objs)[o.digest := Entry(o.data, o.lastUsed)];
    forall d
      ensures d in TableOf(all) <==> d in t
      ensures d in t ==> t[d] == TableOf(all)[d]
    {
      InsertedEntry(objs, idx, o, all, d);
    }
  }
}
