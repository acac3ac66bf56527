/** The kernel's address-space allocator: regions are carved downwards from the top of user memory. */
module VirtualMemory {
  import opened Machine

  /** round_up of the source: the addition wraps before it is rounded down. */
  function RoundUp64(x: u64, r: u64): (y: u64)
    requires r > 0
    ensures x + r - 1 < W ==> y == RoundUp(x, r)
    ensures x + r - 1 >= W ==> y <= x + r - 1 - W
  {
    var z := Wrap(x + r - 1);
    z - z % r
  }

  datatype Region = Region(lo: u64, hi: u64)

  /**
   `size` bytes fit `room` bytes in whole 2 MiB pages. Sizes so large that rounding them up wraps always pass,
   because the code then asks for no page at all.
   */
  ghost predicate HoldsPages(room: nat, size: u64) {
    size > W - HUGE_PAGE_SIZE || exists n: nat :: size <= n * HUGE_PAGE_SIZE <= room
  }

  lemma RoomInPages(room: nat, size: u64)
    ensures room >= RoundUp64(size, HUGE_PAGE_SIZE) <==> HoldsPages(room, size)
    ensures size <= W - HUGE_PAGE_SIZE ==> size <= RoundUp64(size, HUGE_PAGE_SIZE)
    ensures size > W - HUGE_PAGE_SIZE ==> RoundUp64(size, HUGE_PAGE_SIZE) == 0
  {
    var n := (size + HUGE_PAGE_SIZE - 1) / HUGE_PAGE_SIZE;
    if size <= W - HUGE_PAGE_SIZE {
      assert RoundUp64(size, HUGE_PAGE_SIZE) == n * HUGE_PAGE_SIZE;
    }
  }

  class Memory {
    var kernelBreak: u64
    var vaddrBreak: u64
    /** Everything handed out so far, oldest first; `top` is where the first region ended. */
    ghost var regions: seq<Region>
    ghost var top: u64

    ghost predicate Valid()
      reads this
    {
      && kernelBreak <= vaddrBreak <= top
      && (regions == [] ==> vaddrBreak == top)
      && (regions != [] ==> regions[0].hi == top && regions[|regions| - 1].lo == vaddrBreak)
      && (forall i | 0 <= i < |regions| :: regions[i].lo <= regions[i].hi)
      && (forall i, j | 0 <= i < j < |regions| :: regions[j].hi <= regions[i].lo)
    }

    constructor (kernelBreak: u64, vaddrBreak: u64)
      requires kernelBreak <= vaddrBreak
      ensures Valid() && regions == []
      ensures this.kernelBreak == kernelBreak && this.vaddrBreak == top == vaddrBreak
    {
      this.kernelBreak := kernelBreak;
      this.vaddrBreak := vaddrBreak;
      regions, top := [], vaddrBreak;
    }

    /**
     A region just below everything handed out before, or nothing. The region really holds `size` bytes
     exactly when rounding `size` up to 2 MiB does not wrap.
     */
    method Allocate(size: u64) returns (r: Option<u64>)
      requires Valid()
      modifies this
      ensures Valid() && kernelBreak == old(kernelBreak) && top == old(top)
      ensures r.Some? <==> HoldsPages(old(vaddrBreak) - kernelBreak, size)
      ensures r.Some? <==> old(vaddrBreak) - kernelBreak >= RoundUp64(size, HUGE_PAGE_SIZE)
      ensures r.None? ==> vaddrBreak == old(vaddrBreak) && regions == old(regions)
      ensures r.Some? ==>
                && r.value == vaddrBreak
                && regions == old(regions) + [Region(r.value, old(vaddrBreak))]
                && (r.value + size <= old(vaddrBreak) <==> size <= W - HUGE_PAGE_SIZE)
                && old(vaddrBreak) - r.value == RoundUp64(size, HUGE_PAGE_SIZE)
    {
      var rounded := RoundUp64(size, HUGE_PAGE_SIZE);
      RoomInPages(vaddrBreak - kernelBreak, size);
      if vaddrBreak - kernelBreak < rounded {
        r := None;
      } else {
        regions := regions + [Region(vaddrBreak - rounded, vaddrBreak)];
        vaddrBreak := vaddrBreak - rounded;
        r := Some(vaddrBreak);
      }
    }

    /** Whether Allocate would succeed now. */
    method CanAllocate(size: u64) returns (b: bool)
      requires Valid()
      ensures b <==> HoldsPages(vaddrBreak - kernelBreak, size)
    {
      RoomInPages(vaddrBreak - kernelBreak, size);
      b := vaddrBreak - kernelBreak >= RoundUp64(size, HUGE_PAGE_SIZE);
    }
  }
}
