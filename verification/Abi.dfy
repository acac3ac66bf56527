/** The record that the kernel leaves for the program, and in which the program leaves the sizes of its output. */
module Abi {
  import opened Machine
  import opened Bytes
  import opened Startup

  const ABI_VERSION: int := 40

  /** DuckInfo_t: packed 64-bit words in this order. */
  datatype DuckInfo = DuckInfo(
    abiVersion: u64,
    stdinPtr: u64, stdinSize: u64,
    stdoutPtr: u64, stdoutLimit: u64, stdoutSize: u64,
    stderrPtr: u64, stderrLimit: u64, stderrSize: u64,
    ibPtr: u64, ibLimit: u64,
    obPtr: u64, obLimit: u64,
    tscFrequency: u64)
  {
    function Words(): (ws: seq<u64>)
      ensures |ws| == INFO_WORDS
    {
      [abiVersion, stdinPtr, stdinSize, stdoutPtr, stdoutLimit, stdoutSize, stderrPtr, stderrLimit, stderrSize,
       ibPtr, ibLimit, obPtr, obLimit, tscFrequency]
    }
  }

  /** A record in memory at `a`: each field is found at its own offset. */
  ghost predicate RecordAt(m: seq<byte>, a: nat, i: DuckInfo) {
    && a + 112 <= |m|
    && WordAt(m, a) == i.abiVersion
    && WordAt(m, a + 8) == i.stdinPtr && WordAt(m, a + 16) == i.stdinSize
    && WordAt(m, a + 24) == i.stdoutPtr && WordAt(m, a + 32) == i.stdoutLimit && WordAt(m, a + 40) == i.stdoutSize
    && WordAt(m, a + 48) == i.stderrPtr && WordAt(m, a + 56) == i.stderrLimit && WordAt(m, a + 64) == i.stderrSize
    && WordAt(m, a + 72) == i.ibPtr && WordAt(m, a + 80) == i.ibLimit
    && WordAt(m, a + 88) == i.obPtr && WordAt(m, a + 96) == i.obLimit
    && WordAt(m, a + 104) == i.tscFrequency
  }

  /** The encoded record reads back field by field. */
  lemma RecordReads(m: seq<byte>, a: nat, i: DuckInfo)
    requires a + 112 <= |m| && m[a..a + 112] == WordBytes(i.Words())
    ensures RecordAt(m, a, i)
  {
    hide WordBytes, WordAt, DuckInfo.Words, RecordAt;
    var ws := i.Words();
    forall k: nat | k < INFO_WORDS
      ensures WordAt(m, a + 8 * k) == ws[k]
    {
      StoredWord(m, a, ws, k);
    }
    RecordFromWords(m, a, i);
  }

  lemma RecordFromWords(m: seq<byte>, a: nat, i: DuckInfo)
    requires a + 112 <= |m| && forall k: nat | k < INFO_WORDS :: WordAt(m, a + 8 * k) == i.Words()[k]
    ensures RecordAt(m, a, i)
  {
    hide WordAt, DuckInfo.Words;
    FieldOrder(i);
    RecordWords(m, a, i.Words());
  }

  lemma FieldOrder(i: DuckInfo)
    ensures
      var ws := i.Words();
      && ws[0] == i.abiVersion && ws[1] == i.stdinPtr && ws[2] == i.stdinSize
      && ws[3] == i.stdoutPtr && ws[4] == i.stdoutLimit && ws[5] == i.stdoutSize
      && ws[6] == i.stderrPtr && ws[7] == i.stderrLimit && ws[8] == i.stderrSize
      && ws[9] == i.ibPtr && ws[10] == i.ibLimit && ws[11] == i.obPtr && ws[12] == i.obLimit
      && ws[13] == i.tscFrequency
  {
  }

  lemma RecordWords(m: seq<byte>, a: nat, ws: seq<u64>)
    requires a + 112 <= |m| && |ws| == 14 && forall k: nat | k < 14 :: WordAt(m, a + 8 * k) == ws[k]
    ensures WordAt(m, a) == ws[0] && WordAt(m, a + 8) == ws[1] && WordAt(m, a + 16) == ws[2]
    ensures WordAt(m, a + 24) == ws[3] && WordAt(m, a + 32) == ws[4] && WordAt(m, a + 40) == ws[5]
    ensures WordAt(m, a + 48) == ws[6] && WordAt(m, a + 56) == ws[7] && WordAt(m, a + 64) == ws[8]
    ensures WordAt(m, a + 72) == ws[9] && WordAt(m, a + 80) == ws[10] && WordAt(m, a + 88) == ws[11]
    ensures WordAt(m, a + 96) == ws[12] && WordAt(m, a + 104) == ws[13]
  {
    hide WordAt;
    assert a + 8 * 0 == a && a + 8 * 1 == a + 8;
    assert WordAt(m, a + 8 * 2) == ws[2] && WordAt(m, a + 8 * 3) == ws[3] && WordAt(m, a + 8 * 4) == ws[4];
    assert WordAt(m, a + 8 * 5) == ws[5] && WordAt(m, a + 8 * 6) == ws[6] && WordAt(m, a + 8 * 7) == ws[7];
    assert WordAt(m, a + 8 * 8) == ws[8] && WordAt(m, a + 8 * 9) == ws[9] && WordAt(m, a + 8 * 10) == ws[10];
    assert WordAt(m, a + 8 * 11) == ws[11] && WordAt(m, a + 8 * 12) == ws[12] && WordAt(m, a + 8 * 13) == ws[13];
  }
}
