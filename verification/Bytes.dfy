/** Byte strings in memory: memcpy and little-endian words. */
module Bytes {
  import opened Machine

  /** `s` with `data` written over it at `at`. */
  function Put(s: seq<byte>, at: nat, data: seq<byte>): (t: seq<byte>)
    requires at + |data| <= |s|
    ensures |t| == |s|
  {
    s[..at] + data + s[at + |data|..]
  }

  /** memcpy of `data` to `dst` at `at`. */
  method Blit(data: seq<byte>, dst: array<byte>, at: nat)
    requires at + |data| <= dst.Length
    modifies dst
    ensures dst[..] == Put(old(dst[..]), at, data)
  {
    for i := 0 to |data|
      invariant dst[..] == Put(old(dst[..]), at, data[..i])
    {
      PutOne(old(dst[..]), at, data, i);
      dst[at + i] := data[i];
    }
    assert data[..|data|] == data;
  }

  lemma PutNothing(s: seq<byte>, at: nat)
    requires at <= |s|
    ensures Put(s, at, []) == s
  {
  }

  lemma PutReads(s: seq<byte>, at: nat, data: seq<byte>)
    requires at + |data| <= |s|
    ensures Put(s, at, data)[at..at + |data|] == data
  {
  }

  lemma PutByte(s: seq<byte>, at: nat, data: seq<byte>, a: nat)
    requires at + |data| <= |s| && a < |s|
    ensures Put(s, at, data)[a] == if at <= a < at + |data| then data[a - at] else s[a]
  {
  }

  /** Reading a range that the write does not meet. */
  lemma PutElsewhere(s: seq<byte>, at: nat, data: seq<byte>, lo: nat, hi: nat)
    requires at + |data| <= |s| && lo <= hi <= |s| && (hi <= at || at + |data| <= lo || data == [])
    ensures Put(s, at, data)[lo..hi] == s[lo..hi]
  {
    hide Put;
    var t := Put(s, at, data);
    forall a | lo <= a < hi
      ensures t[a] == s[a]
    {
      PutByte(s, at, data, a);
    }
    assert forall k | 0 <= k < hi - lo :: t[lo..hi][k] == t[lo + k] && s[lo..hi][k] == s[lo + k];
  }

  lemma SubSlice(s: seq<byte>, lo: nat, hi: nat, x: nat, y: nat)
    requires lo <= hi <= |s| && x <= y <= hi - lo
    ensures s[lo..hi][x..y] == s[lo + x..lo + y]
  {
    assert forall k | 0 <= k < y - x :: s[lo..hi][x..y][k] == s[lo + x..lo + y][k];
  }

  lemma PutOne(s: seq<byte>, at: nat, data: seq<byte>, i: nat)
    requires at + |data| <= |s| && i < |data|
    ensures Put(s, at, data[..i])[at + i := data[i]] == Put(s, at, data[..i + 1])
  {
  }

  lemma PutMore(s: seq<byte>, at: nat, data: seq<byte>, cur: nat, m: nat)
    requires at + |data| <= |s| && cur + m <= |data|
    ensures Put(Put(s, at, data[..cur]), at + cur, data[cur..cur + m]) == Put(s, at, data[..cur + m])
  {
  }

  // ---- Little-endian words ----

  /** The value of a little-endian byte string. */
  function Le(s: seq<byte>): (v: nat)
    ensures |s| == 1 ==> v < 0x100
    ensures |s| == 2 ==> v < 0x1_0000
    ensures |s| == 4 ==> v < 0x1_0000_0000
    ensures |s| == 8 ==> v < W
  {
    LeBound(s);
    LeRec(s)
  }

  function LeRec(s: seq<byte>): nat {
    if s == [] then 0 else s[0] as int + 256 * LeRec(s[1..])
  }

  function Pow256(n: nat): nat {
    if n == 0 then 1 else 256 * Pow256(n - 1)
  }

  lemma {:induction false} LeRecBound(s: seq<byte>)
    ensures LeRec(s) < Pow256(|s|)
  {
    if s == [] {
    } else {
      LeRecBound(s[1..]);
    }
  }

  lemma LeBound(s: seq<byte>)
    ensures |s| == 1 ==> LeRec(s) < 0x100
    ensures |s| == 2 ==> LeRec(s) < 0x1_0000
    ensures |s| == 4 ==> LeRec(s) < 0x1_0000_0000
    ensures |s| == 8 ==> LeRec(s) < W
  {
    LeRecBound(s);
    assert Pow256(2) == 0x1_0000;
    assert Pow256(4) == 0x1_0000 * Pow256(2);
    assert Pow256(6) == 0x1_0000 * Pow256(4);
    assert Pow256(8) == 0x1_0000 * Pow256(6);
  }

  /** The `n` little-endian bytes of `v`. */
  function LeBytes(v: nat, n: nat): (s: seq<byte>)
    ensures |s| == n
  {
    if n == 0 then [] else [(v % 256) as byte] + LeBytes(v / 256, n - 1)
  }

  /** Writing a word and reading it back. */
  lemma {:induction false} LeRoundTrip(v: nat, n: nat)
    requires v < Pow256(n)
    ensures LeRec(LeBytes(v, n)) == v
  {
    if n == 0 {
    } else {
      LeRoundTrip(v / 256, n - 1);
      assert LeBytes(v, n)[1..] == LeBytes(v / 256, n - 1);
    }
  }

  lemma WordRoundTrip(v: u64)
    ensures Le(LeBytes(v, 8)) == v
  {
    assert Pow256(2) == 0x1_0000;
    assert Pow256(4) == 0x1_0000 * Pow256(2);
    assert Pow256(6) == 0x1_0000 * Pow256(4);
    assert Pow256(8) == 0x1_0000 * Pow256(6);
    LeRoundTrip(v, 8);
  }

  /** The 64-bit word stored at address `a`. */
  function WordAt(s: seq<byte>, a: nat): u64
    requires a + 8 <= |s|
  {
    Le(s[a..a + 8])
  }
}
