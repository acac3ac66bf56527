/** Any sequence of calls on a DuckCache is a run of the specification. */
module CacheRuns {
  import opened Machine
  import opened CacheSpec
  import D = DuckCache

  datatype Request =
    | PutRequest(digest: Digest256, src: seq<byte>, now: u64)
    | GetRequest(digest: Digest256, len: nat, now: u64)

  predicate WellFormed(r: Request) {
    r.now != 0 && (r.PutRequest? ==> |r.src| + CONTENT_SIZE - 1 < W)
  }

  /** The event is about the request. */
  predicate Reports(e: Event, r: Request) {
    match r
    case PutRequest(d, src, now) => e.Store? && e.digest == d && e.src == src && e.now == now
    case GetRequest(d, len, now) => e.Load? && e.digest == d && e.len == len && e.now == now
  }

  /** Serve one request and report it as an event. */
  method ServeOne(c: D.DuckCache, r: Request) returns (e: Event)
    requires c.Valid() && WellFormed(r)
    modifies c`nCur, c`nFree, c`freeList, c`arena, c.objHash, c.objDigest, c.objMeta, c.sortIds, c.pages
    ensures c.Valid() && Step(old(c.Abs()), e, c.Abs())
    ensures Reports(e, r)
  {
    match r
    case PutRequest(d, src, now) =>
      var ok := c.Store(d, src, now);
      e := Store(d, src, now, ok);
    case GetRequest(d, len, now) =>
      var dst := new byte[len];
      var ok := c.Load(d, dst, 0, len, now);
      e := Load(d, len, now, if ok then Some(dst[0..len]) else None);
  }

  /** Serve a whole list; the events and the ghost history form a Run. */
  method Serve(c: D.DuckCache, rs: seq<Request>) returns (events: seq<Event>, ghost states: seq<Cache>)
    requires c.Valid() && c.Abs().table == map[]
    requires forall i | 0 <= i < |rs| :: WellFormed(rs[i])
    modifies c`nCur, c`nFree, c`freeList, c`arena, c.objHash, c.objDigest, c.objMeta, c.sortIds, c.pages
    ensures c.Valid() && Run(states, events) && |events| == |rs|
    ensures states[0] == old(c.Abs()) && states[|rs|] == c.Abs()
    ensures forall i | 0 <= i < |rs| :: Reports(events[i], rs[i])
  {
    hide D.DuckCache.Valid, Step, WellFormed, Reports;
    events, states := [], [c.Abs()];
    for i := 0 to |rs|
      invariant c.Valid() && |events| == i
      invariant forall k | 0 <= k < i :: Reports(events[k], rs[k])
      invariant Run(states, events) && states[0] == old(c.Abs()) && states[i] == c.Abs()
    {
      var e := ServeOne(c, rs[i]);
      RunExtends(states, events, e, c.Abs());
      events, states := events + [e], states + [c.Abs()];
    }
  }

  lemma RunExtends(states: seq<Cache>, events: seq<Event>, e: Event, c: Cache)
    requires Run(states, events) && Step(states[|events|], e, c)
    ensures Run(states + [c], events + [e])
  {
    var ss, es := states + [c], events + [e];
    forall i | 0 <= i < |es|
      ensures StepAt(ss, es, i)
    {
      if i < |events| {
        assert StepAt(states, events, i);
      }
    }
  }
}
