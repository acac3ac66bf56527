/**
 What a DuckCache promises, said without pages, arrays or chains: a bounded table from
 digest to bytes with least-recently-used eviction, and the runs of such a table.
 */
module CacheSpec {
  import opened Machine

  /** Bytes of content in one page: a page minus its 8-byte link. */
  const CONTENT_SIZE: int := PAGE_SIZE - 8

  datatype Digest256 = Digest256(a0: u64, a1: u64, a2: u64, a3: u64)

  datatype Entry = Entry(data: seq<byte>, lastUsed: u64)

  type Table = map<Digest256, Entry>

  datatype Cache = Cache(table: Table, maxObjects: nat, totalPages: nat)

  /** Pages an object of `len` bytes occupies; an empty object still takes one. */
  function PagesFor(len: nat): (n: nat)
    ensures n >= 1
    ensures len <= n * CONTENT_SIZE
    ensures n > 1 ==> (n - 1) * CONTENT_SIZE < len
  {
    Max((len + CONTENT_SIZE - 1) / CONTENT_SIZE, 1)
  }

  /** Pages taken by all resident objects together. */
  ghost function PagesUsed(t: Table): nat
    decreases |t|
  {
    if t == map[] then 0
    else
      var d :| d in t;
      PagesFor(|t[d].data|) + PagesUsed(t - {d})
  }

  /** PagesUsed does not depend on the order in which entries are added up. */
  lemma {:induction false} PagesUsedRemove(t: Table, d: Digest256)
    requires d in t
    ensures PagesUsed(t) == PagesFor(|t[d].data|) + PagesUsed(t - {d})
    decreases |t|
  {
    var e :| e in t && PagesUsed(t) == PagesFor(|t[e].data|) + PagesUsed(t - {e});
    if e == d {
    } else {
      PagesUsedRemove(t - {e}, d);
      PagesUsedRemove(t - {d}, e);
      assert t - {e} - {d} == t - {d} - {e};
    }
  }

  lemma PagesUsedAdd(t: Table, d: Digest256, e: Entry)
    requires d !in t
    ensures PagesUsed(t[d := e]) == PagesFor(|e.data|) + PagesUsed(t)
  {
    PagesUsedRemove(t[d := e], d);
    assert t[d := e] - {d} == t;
  }

  function SetOf(s: seq<Digest256>): set<Digest256> {
    set d | d in s
  }

  /** There is no room for one more object of `need` pages beside table `t`. */
  ghost predicate Short(c: Cache, t: Table, need: nat) {
    || need + PagesUsed(t) > c.totalPages
    || |t| + 1 > c.maxObjects
  }

  /**
   `victims`, in the order they go, is the shortest prefix of the last-use order whose removal
   makes room for `need` more pages and one more object.
   */
  ghost predicate Eviction(c: Cache, need: nat, victims: seq<Digest256>) {
    && (forall i, j | 0 <= i < j < |victims| :: victims[i] != victims[j])
    && (forall v | v in victims :: v in c.table)
    && (forall i, j | 0 <= i < j < |victims| ::
          c.table[victims[i]].lastUsed <= c.table[victims[j]].lastUsed)
    && (forall v, s | v in victims && s in c.table && s !in victims ::
          c.table[v].lastUsed <= c.table[s].lastUsed)
    && !Short(c, c.table - SetOf(victims), need)
    && (|victims| > 0 ==> Short(c, c.table - SetOf(victims[..|victims| - 1]), need))
  }

  ghost predicate StoredAfter(c: Cache, d: Digest256, src: seq<byte>, now: u64, c': Cache, victims: seq<Digest256>) {
    && Eviction(c, PagesFor(|src|), victims)
    && c' == c.(table := (c.table - SetOf(victims))[d := Entry(src, now)])
  }

  /** store: insert if absent, evicting as little as possible; fails only for an object larger than the cache. */
  ghost predicate StoreSpec(c: Cache, d: Digest256, src: seq<byte>, now: u64, c': Cache, ok: bool) {
    if d in c.table then ok && c' == c
    else if PagesFor(|src|) > c.totalPages then !ok && c' == c
    else ok && exists victims :: StoredAfter(c, d, src, now, c', victims)
  }

  /** load: succeeds exactly on a resident object of the required length, and refreshes its last use. */
  ghost predicate LoadSpec(c: Cache, d: Digest256, len: nat, now: u64, c': Cache, got: Option<seq<byte>>) {
    if d in c.table && |c.table[d].data| == len then
      && got == Some(c.table[d].data)
      && c' == c.(table := c.table[d := c.table[d].(lastUsed := now)])
    else
      got == None && c' == c
  }

  // ---- Runs ----

  datatype Event =
    | Store(digest: Digest256, src: seq<byte>, now: u64, ok: bool)
    | Load(digest: Digest256, len: nat, now: u64, got: Option<seq<byte>>)

  ghost predicate Step(c: Cache, e: Event, c': Cache) {
    match e
    case Store(d, src, now, ok) => StoreSpec(c, d, src, now, c', ok)
    case Load(d, len, now, got) => LoadSpec(c, d, len, now, c', got)
  }

  ghost predicate StepAt(states: seq<Cache>, events: seq<Event>, i: nat)
    requires |states| == |events| + 1 && i < |events|
  {
    Step(states[i], events[i], states[i + 1])
  }

  /** `states` is the history of a cache that started empty and took `events` one after another. */
  ghost predicate Run(states: seq<Cache>, events: seq<Event>) {
    && |states| == |events| + 1
    && states[0].table == map[]
    && forall i | 0 <= i < |events| :: StepAt(states, events, i)
  }

  /** Event `j` stored `b` under the then absent digest `d`, which has kept these bytes up to state `k`. */
  ghost predicate InsertedAt(states: seq<Cache>, events: seq<Event>, j: nat, k: nat, d: Digest256, b: seq<byte>)
    requires |states| == |events| + 1
  {
    && j < k < |states|
    && events[j].Store? && events[j].ok && events[j].digest == d && events[j].src == b
    && d !in states[j].table
    && forall i | j < i <= k :: d in states[i].table && states[i].table[d].data == b
  }

  ghost predicate Stored(states: seq<Cache>, events: seq<Event>, k: nat, d: Digest256, b: seq<byte>)
    requires |states| == |events| + 1
  {
    exists j: nat :: InsertedAt(states, events, j, k, d, b)
  }

  /** Resident bytes are those of the store that brought the digest in, not of any ignored or evicted one. */
  lemma {:induction false} ResidentWasStored(states: seq<Cache>, events: seq<Event>, k: nat)
    requires Run(states, events) && k < |states|
    ensures forall d | d in states[k].table :: Stored(states, events, k, d, states[k].table[d].data)
    ensures states[k].totalPages == states[0].totalPages && states[k].maxObjects == states[0].maxObjects
  {
    if k == 0 {
    } else {
      ResidentWasStored(states, events, k - 1);
      assert StepAt(states, events, k - 1);
      forall d | d in states[k].table
        ensures Stored(states, events, k, d, states[k].table[d].data)
      {
        StillStored(states, events, k, d);
      }
    }
  }

  lemma StillStored(states: seq<Cache>, events: seq<Event>, k: nat, d: Digest256)
    requires Run(states, events) && 0 < k < |states| && d in states[k].table
    requires d in states[k - 1].table ==> Stored(states, events, k - 1, d, states[k - 1].table[d].data)
    ensures Stored(states, events, k, d, states[k].table[d].data)
  {
    hide Eviction;
    assert StepAt(states, events, k - 1);
    var b := states[k].table[d].data;
    if d in states[k - 1].table {
      assert states[k - 1].table[d].data == b;
      var j: nat :| InsertedAt(states, events, j, k - 1, d, b);
      assert InsertedAt(states, events, j, k, d, b);
    } else {
      assert InsertedAt(states, events, k - 1, k, d, b);
    }
  }

  /** A load that succeeds yields exactly `len` bytes, those of the store that brought the digest in. */
  lemma LoadYieldsStoredBytes(states: seq<Cache>, events: seq<Event>, k: nat)
    requires Run(states, events) && k < |events|
    requires events[k].Load? && events[k].got.Some?
    ensures |events[k].got.value| == events[k].len
    ensures Stored(states, events, k, events[k].digest, events[k].got.value)
  {
    ResidentWasStored(states, events, k);
    assert StepAt(states, events, k);
  }

  ghost predicate WithinCapacity(c: Cache) {
    PagesUsed(c.table) <= c.totalPages && |c.table| <= c.maxObjects
  }

  lemma StoreKeepsCapacity(c: Cache, d: Digest256, src: seq<byte>, now: u64, c': Cache, victims: seq<Digest256>)
    requires WithinCapacity(c) && d !in c.table && StoredAfter(c, d, src, now, c', victims)
    ensures WithinCapacity(c')
  {
    var rest := c.table - SetOf(victims);
    PagesUsedAdd(rest, d, Entry(src, now));
    assert c'.table.Keys == rest.Keys + {d};
    assert |c'.table| == |c'.table.Keys| && |rest| == |rest.Keys|;
  }

  lemma RefreshKeepsCapacity(c: Cache, d: Digest256, now: u64)
    requires WithinCapacity(c) && d in c.table
    ensures WithinCapacity(c.(table := c.table[d := c.table[d].(lastUsed := now)]))
  {
    var t := c.table[d := c.table[d].(lastUsed := now)];
    PagesUsedRemove(c.table, d);
    PagesUsedRemove(t, d);
    assert c.table - {d} == t - {d};
    assert c.table.Keys == t.Keys;
    assert |c.table| == |c.table.Keys| && |t| == |t.Keys|;
  }

  /** The bounds of the block hold in every reachable state. */
  lemma {:induction false} CapacityKept(states: seq<Cache>, events: seq<Event>, k: nat)
    requires Run(states, events) && k < |states|
    ensures PagesUsed(states[k].table) <= states[k].totalPages
    ensures |states[k].table| <= states[k].maxObjects
  {
    if k == 0 {
    } else {
      CapacityKept(states, events, k - 1);
      var c, e, c' := states[k - 1], events[k - 1], states[k];
      assert StepAt(states, events, k - 1);
      if c' != c {
        if e.Store? {
          var victims :| StoredAfter(c, e.digest, e.src, e.now, c', victims);
          StoreKeepsCapacity(c, e.digest, e.src, e.now, c', victims);
        } else {
          RefreshKeepsCapacity(c, e.digest, e.now);
        }
      }
    }
  }

  // ---- The LRU guarantee ----

  /** Pages taken by the objects named in `ws`, where `size` is the length each digest stands for. */
  ghost function Weight(ws: set<Digest256>, size: Digest256 -> nat): nat {
    if ws == {} then 0
    else
      var d :| d in ws;
      PagesFor(size(d)) + Weight(ws - {d}, size)
  }

  lemma {:induction false} WeightRemove(ws: set<Digest256>, size: Digest256 -> nat, d: Digest256)
    requires d in ws
    ensures Weight(ws, size) == PagesFor(size(d)) + Weight(ws - {d}, size)
    decreases |ws|
  {
    var e :| e in ws && Weight(ws, size) == PagesFor(size(e)) + Weight(ws - {e}, size);
    if e == d {
    } else {
      WeightRemove(ws - {e}, size, d);
      WeightRemove(ws - {d}, size, e);
      assert ws - {e} - {d} == ws - {d} - {e};
    }
  }

  ghost predicate Sized(t: Table, size: Digest256 -> nat) {
    forall d | d in t :: |t[d].data| == size(d)
  }

  lemma {:induction false} PagesUsedWithin(t: Table, ws: set<Digest256>, size: Digest256 -> nat)
    requires t.Keys <= ws && Sized(t, size)
    ensures PagesUsed(t) <= Weight(ws, size)
    ensures |t| <= |ws|
    decreases |t|
  {
    if t == map[] {
    } else {
      var d :| d in t;
      PagesUsedRemove(t, d);
      WeightRemove(ws, size, d);
      PagesUsedWithin(t - {d}, ws - {d}, size);
    }
  }

  /** Every store in the run supplies as many bytes as its digest stands for (no digest collides). */
  ghost predicate ContentAddressed(events: seq<Event>, size: Digest256 -> nat) {
    forall i | 0 <= i < |events| && events[i].Store? :: |events[i].src| == size(events[i].digest)
  }

  lemma ReachableSized(states: seq<Cache>, events: seq<Event>, k: nat, size: Digest256 -> nat)
    requires Run(states, events) && k < |states| && ContentAddressed(events, size)
    ensures Sized(states[k].table, size)
  {
    ResidentWasStored(states, events, k);
    forall d | d in states[k].table
      ensures |states[k].table[d].data| == size(d)
    {
      assert Stored(states, events, k, d, states[k].table[d].data);
    }
  }

  ghost predicate ClockIncreases(events: seq<Event>) {
    forall i, j | 0 <= i < j < |events| :: events[i].now < events[j].now
  }

  /** No resident object carries a time stamp later than the last clock reading. */
  lemma {:induction false} StampsPast(states: seq<Cache>, events: seq<Event>, k: nat)
    requires Run(states, events) && 0 < k < |states| && ClockIncreases(events)
    ensures forall d | d in states[k].table :: states[k].table[d].lastUsed <= events[k - 1].now
  {
    assert StepAt(states, events, k - 1);
    if k == 1 {
    } else {
      StampsPast(states, events, k - 1);
      assert events[k - 2].now < events[k - 1].now;
    }
  }

  /** Event `j` left `d` resident with the event's own time stamp. */
  ghost predicate Touched(states: seq<Cache>, events: seq<Event>, j: nat, d: Digest256)
    requires |states| == |events| + 1
  {
    && j < |events|
    && d in states[j + 1].table
    && states[j + 1].table[d].lastUsed == events[j].now
  }

  /** Event `j` was a hit of `d`, or the store that brought `d` in. */
  ghost predicate UsedAt(states: seq<Cache>, events: seq<Event>, j: nat, d: Digest256)
    requires |states| == |events| + 1
  {
    && j < |events| && events[j].digest == d
    && match events[j]
       case Load(_, _, _, got) => got.Some?
       case Store(_, _, _, ok) => ok && d !in states[j].table
  }

  /** Every hit refreshes the last use, and every inserting store sets it. */
  lemma UseTouches(states: seq<Cache>, events: seq<Event>, j: nat, d: Digest256)
    requires Run(states, events) && UsedAt(states, events, j, d)
    ensures Touched(states, events, j, d)
  {
    hide Eviction;
    assert StepAt(states, events, j);
  }

  /** A store answers yes exactly when the digest is resident afterwards, and no only to an object too large for all. */
  lemma StoreAnswers(states: seq<Cache>, events: seq<Event>, k: nat)
    requires Run(states, events) && k < |events| && events[k].Store?
    ensures events[k].ok <==> events[k].digest in states[k + 1].table
    ensures !events[k].ok <==>
              && events[k].digest !in states[k].table
              && (states[0].totalPages == 0 || |events[k].src| > states[0].totalPages * CONTENT_SIZE)
  {
    hide Eviction;
    assert StepAt(states, events, k);
    ResidentWasStored(states, events, k);
  }

  /** A load hits exactly a resident object of that length, and changes at most the last use of its digest. */
  lemma LoadAnswers(states: seq<Cache>, events: seq<Event>, k: nat)
    requires Run(states, events) && k < |events| && events[k].Load?
    ensures
      var d, t, t' := events[k].digest, states[k].table, states[k + 1].table;
      && (events[k].got.Some? <==> d in t && |t[d].data| == events[k].len)
      && t'.Keys == t.Keys && (forall e | e in t && e != d :: t'[e] == t[e])
      && (events[k].got.Some? ==> t[d].data == t'[d].data == events[k].got.value)
      && (events[k].got.None? ==> t' == t)
  {
    assert StepAt(states, events, k);
  }

  /**
   A store of a resident digest, or of an object too large, changes nothing. Any other leaves its survivors alone, and
   when there is room all objects survive.
   */
  lemma StoreLeaves(states: seq<Cache>, events: seq<Event>, k: nat)
    requires Run(states, events) && k < |events| && events[k].Store?
    ensures
      var d, t, t' := events[k].digest, states[k].table, states[k + 1].table;
      && (d in t || !events[k].ok ==> t' == t)
      && (d !in t && events[k].ok ==> d in t' && t'[d] == Entry(events[k].src, events[k].now))
      && (forall e | e in t' && e != d :: e in t && t'[e] == t[e])
      && (PagesFor(|events[k].src|) + PagesUsed(t) <= states[k].totalPages && |t| + 1 <= states[k].maxObjects ==>
            t.Keys <= t'.Keys)
  {
    hide Eviction;
    assert StepAt(states, events, k);
    var c, e, c' := states[k], events[k], states[k + 1];
    if e.ok && e.digest !in c.table {
      var victims :| StoredAfter(c, e.digest, e.src, e.now, c', victims);
      NoNeedlessEviction(c, PagesFor(|e.src|), victims);
      assert c.table - SetOf([]) == c.table;
    }
  }

  /** Nothing is evicted when there is room. */
  lemma NoNeedlessEviction(c: Cache, need: nat, victims: seq<Digest256>)
    requires Eviction(c, need, victims)
    ensures !Short(c, c.table, need) ==> victims == []
  {
    if victims != [] {
      PagesUsedLess(c.table, SetOf(victims[..|victims| - 1]));
    }
  }

  lemma {:induction false} PagesUsedLess(t: Table, gone: set<Digest256>)
    ensures PagesUsed(t - gone) <= PagesUsed(t) && |t - gone| <= |t|
    decreases |gone|
  {
    hide PagesUsed;
    if gone == {} {
      MinusNone(t);
    } else {
      var d :| d in gone;
      var u := t - (gone - {d});
      PagesUsedLess(t, gone - {d});
      MinusOne(t, gone, d);
      OneLess(u, d);
    }
  }

  lemma MinusOne(t: Table, gone: set<Digest256>, d: Digest256)
    requires d in gone
    ensures t - gone == t - (gone - {d}) - {d}
  {
  }

  lemma MinusNone(t: Table)
    ensures t - {} == t
  {
  }

  lemma OneLess(t: Table, d: Digest256)
    ensures PagesUsed(t - {d}) <= PagesUsed(t) && |t - {d}| <= |t|
  {
    if d in t {
      PagesUsedRemove(t, d);
      assert (t - {d}).Keys == t.Keys - {d};
      assert |t| == |t.Keys| && |t - {d}| == |(t - {d}).Keys|;
    } else {
      assert t - {d} == t;
    }
  }

  /** `ws` holds `d` and every digest that events j+1 .. k-1 asked for. */
  ghost predicate WorkingSet(events: seq<Event>, j: nat, k: nat, d: Digest256, ws: set<Digest256>)
    requires k <= |events|
  {
    d in ws && forall i | j < i < k :: events[i].digest in ws
  }

  /** Whatever the last victim left standing before it went was used no earlier than any victim. */
  lemma LastVictimIsNewest(c: Cache, need: nat, victims: seq<Digest256>, d: Digest256, e: Digest256)
    requires Eviction(c, need, victims) && d in victims
    requires e in c.table - SetOf(victims[..|victims| - 1])
    ensures c.table[d].lastUsed <= c.table[e].lastUsed
  {
    hide Short;
    var n := |victims| - 1;
    var i :| 0 <= i < |victims| && victims[i] == d;
    assert forall k | 0 <= k < n :: victims[..n][k] == victims[k] && victims[k] in victims[..n];
  }

  lemma NotShortBeside(c: Cache, t: Table, x: Digest256, ws: set<Digest256>, size: Digest256 -> nat)
    requires x in ws && t.Keys <= ws - {x} && Sized(t, size)
    requires Weight(ws, size) <= c.totalPages && |ws| <= c.maxObjects
    ensures !Short(c, t, PagesFor(size(x)))
  {
    WeightRemove(ws, size, x);
    PagesUsedWithin(t, ws - {x}, size);
  }

  /** One eviction spares `d` when all entries used since `d`, and the newcomer, fit the cache together. */
  lemma EvictionSparesRecent(c: Cache, x: Digest256, len: nat, victims: seq<Digest256>,
                             d: Digest256, ws: set<Digest256>, size: Digest256 -> nat)
    requires x !in c.table && x in ws && len == size(x)
    requires Eviction(c, PagesFor(len), victims)
    requires d in c.table && Sized(c.table, size)
    requires forall e | e in c.table && c.table[d].lastUsed <= c.table[e].lastUsed :: e in ws
    requires Weight(ws, size) <= c.totalPages && |ws| <= c.maxObjects
    ensures d !in victims
  {
    if d in victims {
      var t := c.table - SetOf(victims[..|victims| - 1]);
      forall e | e in t
        ensures e in ws - {x}
      {
        LastVictimIsNewest(c, PagesFor(len), victims, d, e);
      }
      NotShortBeside(c, t, x, ws, size);
    }
  }

  /** `d` is resident, and everything used at or after time `since`, `d` included, is in `ws`. */
  ghost predicate Guarded(t: Table, d: Digest256, ws: set<Digest256>, since: u64) {
    && d in t
    && t[d].lastUsed >= since
    && forall e | e in t && t[e].lastUsed >= since :: e in ws
  }

  lemma StepKeepsGuarded(c: Cache, e: Event, c': Cache, d: Digest256, ws: set<Digest256>, since: u64,
      size: Digest256 -> nat)
    requires Step(c, e, c') && Guarded(c.table, d, ws, since)
    requires e.digest in ws && since < e.now
    requires Sized(c.table, size) && (e.Store? ==> |e.src| == size(e.digest))
    requires Weight(ws, size) <= c.totalPages && |ws| <= c.maxObjects
    ensures Guarded(c'.table, d, ws, since)
  {
    if e.Store? && c' != c {
      var victims :| StoredAfter(c, e.digest, e.src, e.now, c', victims);
      EvictionSparesRecent(c, e.digest, |e.src|, victims, d, ws, size);
    }
  }

  /**
   The LRU guarantee: an object stays resident for as long as it and everything asked for since
   its last use fit the cache together, whatever else the cache holds and whatever the run did before.
   */
  lemma {:induction false} WorkingSetStaysResident(
    states: seq<Cache>, events: seq<Event>, j: nat, k: nat,
    d: Digest256, ws: set<Digest256>, size: Digest256 -> nat)
    requires Run(states, events) && ClockIncreases(events) && ContentAddressed(events, size)
    requires j < k < |states| && UsedAt(states, events, j, d)
    requires WorkingSet(events, j, k, d, ws)
    requires Weight(ws, size) <= states[0].totalPages && |ws| <= states[0].maxObjects
    ensures d in states[k].table
    ensures Guarded(states[k].table, d, ws, events[j].now)
    decreases k
  {
    if k == j + 1 {
      UseTouches(states, events, j, d);
      RecentlyTouchedIsOnlyOne(states, events, j, d, ws);
    } else {
      WorkingSetStaysResident(states, events, j, k - 1, d, ws, size);
      WorkingSetEvent(states, events, j, k - 1, d, ws, size);
      StepKeepsGuarded(states[k - 1], events[k - 1], states[k], d, ws, events[j].now, size);
    }
  }

  /** So a load of an object within its working set is a hit. */
  lemma WorkingSetLoadHits(
    states: seq<Cache>, events: seq<Event>, j: nat, k: nat,
    d: Digest256, ws: set<Digest256>, size: Digest256 -> nat)
    requires Run(states, events) && ClockIncreases(events) && ContentAddressed(events, size)
    requires j < k < |events| && UsedAt(states, events, j, d)
    requires WorkingSet(events, j, k, d, ws)
    requires Weight(ws, size) <= states[0].totalPages && |ws| <= states[0].maxObjects
    requires events[k].Load? && events[k].digest == d && events[k].len == size(d)
    ensures events[k].got.Some?
  {
    WorkingSetStaysResident(states, events, j, k, d, ws, size);
    ReachableSized(states, events, k, size);
    assert StepAt(states, events, k);
  }

  /** What the run says about one event after `j`. */
  lemma WorkingSetEvent(states: seq<Cache>, events: seq<Event>, j: nat, i: nat,
                        d: Digest256, ws: set<Digest256>, size: Digest256 -> nat)
    requires Run(states, events) && ClockIncreases(events) && ContentAddressed(events, size)
    requires j < i < |events| && WorkingSet(events, j, i + 1, d, ws)
    ensures Step(states[i], events[i], states[i + 1])
    ensures events[i].digest in ws && events[j].now < events[i].now
    ensures events[i].Store? ==> |events[i].src| == size(events[i].digest)
    ensures Sized(states[i].table, size)
    ensures states[i].totalPages == states[0].totalPages && states[i].maxObjects == states[0].maxObjects
  {
    assert StepAt(states, events, i);
    ReachableSized(states, events, i, size);
    ResidentWasStored(states, events, i);
  }

  lemma RecentlyTouchedIsOnlyOne(states: seq<Cache>, events: seq<Event>, j: nat, d: Digest256, ws: set<Digest256>)
    requires Run(states, events) && ClockIncreases(events) && Touched(states, events, j, d) && d in ws
    ensures forall e | e in states[j + 1].table && states[j + 1].table[e].lastUsed >= events[j].now :: e in ws
  {
    var c, ev, c' := states[j], events[j], states[j + 1];
    assert StepAt(states, events, j);
    if j > 0 {
      StampsPast(states, events, j);
      assert events[j - 1].now < events[j].now;
    }
  }
}
