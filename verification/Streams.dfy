/** The user library's stream calls: truncated output and sliced input over the buffers the loader set up. */
module Streams {
  import opened Machine
  import opened Bytes

  /** The first `n` bytes, or all of them. */
  function Take(s: seq<byte>, n: nat): (t: seq<byte>)
    ensures |t| == Min(|s|, n)
  {
    if |s| <= n then s else s[..n]
  }

  function Concat(parts: seq<seq<byte>>): seq<byte> {
    if parts == [] then [] else Concat(parts[..|parts| - 1]) + parts[|parts| - 1]
  }

  function Total(lens: seq<nat>): nat {
    if lens == [] then 0 else Total(lens[..|lens| - 1]) + lens[|lens| - 1]
  }

  /** Truncating before or after appending is the same once the limit is applied. */
  lemma TakeAppend(a: seq<byte>, b: seq<byte>, n: nat)
    ensures Take(a + b, n) == Take(a, n) + Take(b, n - |Take(a, n)|)
  {
    if |a| >= n {
      assert (a + b)[..n] == a[..n];
      assert Take(b, 0) == [];
    }
  }

  class Streams {
    const stdin: seq<byte>
    const stdoutLimit: u64
    const stderrLimit: u64
    const stdoutBuf: array<byte>
    const stderrBuf: array<byte>
    var stdinPos: u64
    var stdoutSize: u64
    var stderrSize: u64
    /** Everything read and written so far. */
    ghost var consumed: seq<byte>
    ghost var toStdout: seq<byte>
    ghost var toStderr: seq<byte>

    /** Reads so far are a prefix of stdin; each output buffer holds the first bytes of all that was written to it. */
    ghost predicate Valid()
      reads this, stdoutBuf, stderrBuf
    {
      && |stdin| < W && stdinPos <= |stdin| && consumed == stdin[..stdinPos]
      && stdoutBuf != stderrBuf && stdoutLimit <= stdoutBuf.Length && stderrLimit <= stderrBuf.Length
      && stdoutSize <= stdoutLimit && stderrSize <= stderrLimit
      && stdoutBuf[..stdoutSize] == Take(toStdout, stdoutLimit)
      && stderrBuf[..stderrSize] == Take(toStderr, stderrLimit)
    }

    constructor (stdin: seq<byte>, stdoutBuf: array<byte>, stdoutLimit: u64, stderrBuf: array<byte>, stderrLimit: u64)
      requires |stdin| < W && stdoutBuf != stderrBuf && stdoutLimit <= stdoutBuf.Length
          && stderrLimit <= stderrBuf.Length
      ensures Valid() && consumed == [] && toStdout == [] && toStderr == []
      ensures this.stdin == stdin && this.stdoutBuf == stdoutBuf && this.stderrBuf == stderrBuf
    {
      this.stdin, this.stdoutBuf, this.stderrBuf := stdin, stdoutBuf, stderrBuf;
      this.stdoutLimit, this.stderrLimit := stdoutLimit, stderrLimit;
      stdinPos, stdoutSize, stderrSize := 0, 0, 0;
      consumed, toStdout, toStderr := [], [], [];
    }

    /** duck_read: the next slice of stdin, shorter only at its end. */
    method Read(fd: int, len: u64) returns (data: seq<byte>)
      requires Valid()
      modifies `stdinPos, `consumed
      ensures Valid()
      ensures data == if fd == 0 then Take(stdin[old(stdinPos)..], len) else []
      ensures consumed == old(consumed) + data && stdinPos == old(stdinPos) + |data|
    {
      if fd == 0 {
        var available := |stdin| - stdinPos;
        var actual := Min(len, available);
        data := stdin[stdinPos..stdinPos + actual];
        stdinPos := stdinPos + actual;
        consumed := consumed + data;
      } else {
        data := [];
      }
    }

    /** duck_readv: vector after vector until one comes back short; together they are one read of the total length. */
    method ReadV(fd: int, lens: seq<u64>) returns (ret: u64, parts: seq<seq<byte>>)
      requires Valid()
      modifies `stdinPos, `consumed
      ensures Valid()
      ensures Concat(parts) == if fd == 0 then Take(stdin[old(stdinPos)..], Total(lens)) else []
      ensures ret == |Concat(parts)| && consumed == old(consumed) + Concat(parts)
      ensures |parts| <= |lens| && forall i | 0 <= i < |parts| :: |parts[i]| <= lens[i]
    {
      hide Concat, Total, Take;
      ghost var rest := stdin[stdinPos..];
      ret, parts := 0, [];
      ReadNothing(lens);
      for i := 0 to |lens|
        invariant Valid() && |parts| == i && forall k | 0 <= k < i :: |parts[k]| == lens[k]
        invariant stdinPos == old(stdinPos) + ret && ret <= |rest| && (fd != 0 ==> ret == 0)
        invariant Concat(parts) == rest[..ret] && Total(lens[..i]) == ret
        invariant consumed == old(consumed) + rest[..ret]
      {
        ghost var before := parts;
        ghost var n := ret;
        var data := Read(fd, lens[i]);
        parts := parts + [data];
        ret := ret + |data|;
        ReadStep(stdin, rest, old(stdinPos), n, fd, lens, i, data);
        ConcatAppend(before, data);
        if |data| != lens[i] {
          ReadShort(rest, n, fd, lens, i, data);
          return;
        }
      }
      assert lens[..|lens|] == lens;
      ReadFull(rest, ret, fd);
    }

    /** Append as much of `data` as the limit allows. */
    method Append(buf: array<byte>, size: u64, limit: u64, data: seq<byte>, ghost was: seq<byte>) returns (size': u64)
      requires size <= limit <= buf.Length && buf[..size] == Take(was, limit)
      modifies buf
      ensures size <= size' <= limit && buf[..size'] == Take(was + data, limit)
    {
      hide Put;
      var actual := Min(|data|, limit - size);
      TakeAppend(was, data, limit);
      AppendedPrefix(buf[..], size, data[..actual]);
      Blit(data[..actual], buf, size);
      size' := size + actual;
      assert buf[..size'] == buf[..][..size'];
      assert Take(data, limit - size) == data[..actual];
    }

    /** duck_write: what does not fit is dropped silently, and the full length is reported. */
    method Write(fd: int, data: seq<byte>) returns (ret: nat)
      requires Valid()
      modifies `stdoutSize, `stderrSize, `toStdout, `toStderr, stdoutBuf, stderrBuf
      ensures Valid()
      ensures toStdout == old(toStdout) + (if fd == 1 then data else [])
      ensures toStderr == old(toStderr) + (if fd == 2 then data else [])
      ensures ret == if fd == 1 || fd == 2 then |data| else 0
    {
      hide Take;
      if fd == 1 {
        stdoutSize := Append(stdoutBuf, stdoutSize, stdoutLimit, data, toStdout);
        toStdout := toStdout + data;
        return |data|;
      } else if fd == 2 {
        stderrSize := Append(stderrBuf, stderrSize, stderrLimit, data, toStderr);
        toStderr := toStderr + data;
        return |data|;
      }
      return 0;
    }

    /** duck_writev: one write of all vectors together; the reported length wraps. */
    method WriteV(fd: int, parts: seq<seq<byte>>) returns (ret: u64)
      requires Valid()
      modifies `stdoutSize, `stderrSize, `toStdout, `toStderr, stdoutBuf, stderrBuf
      ensures Valid()
      ensures toStdout == old(toStdout) + (if fd == 1 then Concat(parts) else [])
      ensures toStderr == old(toStderr) + (if fd == 2 then Concat(parts) else [])
      ensures ret == if fd == 1 || fd == 2 then Wrap(|Concat(parts)|) else 0
    {
      hide Valid, Wrap, Concat;
      WrapZero(parts);
      ret := 0;
      for i := 0 to |parts|
        invariant Valid()
        invariant toStdout == old(toStdout) + (if fd == 1 then Concat(parts[..i]) else [])
        invariant toStderr == old(toStderr) + (if fd == 2 then Concat(parts[..i]) else [])
        invariant ret == if fd == 1 || fd == 2 then Wrap(|Concat(parts[..i])|) else 0
      {
        var n := Write(fd, parts[i]);
        assert parts[..i + 1] == parts[..i] + [parts[i]];
        ConcatAppend(parts[..i], parts[i]);
        WrapAdd(|Concat(parts[..i])|, n);
        ret := Wrap(ret + n);
        if n != |parts[i]| {
          return;
        }
      }
      assert parts[..|parts|] == parts;
    }
  }

  lemma WrapZero(parts: seq<seq<byte>>)
    ensures Concat(parts[..0]) == [] && Wrap(0) == 0
  {
  }

  lemma ReadNothing(lens: seq<nat>)
    ensures Concat([]) == [] && Total(lens[..0]) == 0
  {
  }

  /** One vector continues the slice where the last one stopped. */
  lemma ReadStep(stdin: seq<byte>, rest: seq<byte>, pos: nat, n: nat, fd: int, lens: seq<nat>, i: nat, data: seq<byte>)
    requires pos <= |stdin| && rest == stdin[pos..] && n <= |rest| && i < |lens|
    requires data == if fd == 0 then Take(stdin[pos + n..], lens[i]) else []
    ensures n + |data| <= |rest| && rest[..n + |data|] == rest[..n] + data
    ensures Total(lens[..i + 1]) == Total(lens[..i]) + lens[i]
    ensures |data| <= lens[i]
  {
    assert stdin[pos + n..] == rest[n..];
    TotalMonotone(lens, i);
  }

  /** A short vector has used stdin up. */
  lemma ReadShort(rest: seq<byte>, n: nat, fd: int, lens: seq<nat>, i: nat, data: seq<byte>)
    requires n <= |rest| && i < |lens| && Total(lens[..i]) == n && |data| < lens[i]
    requires data == if fd == 0 then Take(rest[n..], lens[i]) else []
    ensures n + |data| <= |rest|
    ensures fd == 0 ==> rest[..n + |data|] == Take(rest, Total(lens))
  {
    TotalMonotone(lens, i);
    TotalPrefix(lens, i + 1);
  }

  lemma ReadFull(rest: seq<byte>, n: nat, fd: int)
    requires n <= |rest|
    ensures rest[..n] == Take(rest, n)
  {
  }

  lemma AppendedPrefix(s: seq<byte>, at: nat, data: seq<byte>)
    requires at + |data| <= |s|
    ensures Put(s, at, data)[..at + |data|] == s[..at] + data
  {
  }

  lemma ConcatAppend(parts: seq<seq<byte>>, data: seq<byte>)
    ensures Concat(parts + [data]) == Concat(parts) + data
  {
    assert (parts + [data])[..|parts|] == parts;
  }

  lemma TotalMonotone(lens: seq<nat>, i: nat)
    requires i < |lens|
    ensures Total(lens[..i + 1]) == Total(lens[..i]) + lens[i]
  {
    assert lens[..i + 1][..i] == lens[..i];
  }

  lemma {:induction false} TotalPrefix(lens: seq<nat>, i: nat)
    requires i <= |lens|
    ensures Total(lens[..i]) <= Total(lens)
    decreases |lens| - i
  {
    if i < |lens| {
      TotalMonotone(lens, i);
      TotalPrefix(lens, i + 1);
    } else {
      assert lens[..i] == lens;
    }
  }
}
