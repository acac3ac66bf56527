/** The block of words a program starts with (section 3.4.1 of the System V AMD64 psABI), pushed below the end of its
    memory. */
module Startup {
  import opened Machine
  import opened Bytes

  const AT_PHDR: int := 3
  const AT_PHENT: int := 4
  const AT_PHNUM: int := 5
  const AT_PAGESZ: int := 6
  const AT_BASE: int := 7
  const AT_ENTRY: int := 9
  const AT_UID: int := 11
  const AT_EUID: int := 12
  const AT_GID: int := 13
  const AT_EGID: int := 14
  const AT_HWCAP: int := 16
  const AT_SECURE: int := 23
  const AT_RANDOM: int := 25
  const AT_DUCK: int := 0x6b637564

  const INFO_WORDS: int := 14
  const START_WORDS: int := 34

  /** What goes on the stack, lowest address first: argc, argv, envp and the auxiliary vector. */
  function StartWords(phdr: u64, phent: u64, phnum: u64, entry: u64, image: u64, random: u64, info: u64): (ws: seq<u64>)
    ensures |ws| == START_WORDS
  {
    [0, 0, 0] + ProcessWords(random) + FileWords(phdr, phent, phnum, entry, image, info) + [0]
  }

  function ProcessWords(random: u64): (ws: seq<u64>)
    ensures |ws| == 16
  {
    [AT_RANDOM, random, AT_SECURE, 0, AT_EGID, 1000, AT_GID, 1000, AT_EUID, 1000, AT_UID, 1000,
     AT_HWCAP, 2, AT_HWCAP, 0xbfebfbff]
  }

  function FileWords(phdr: u64, phent: u64, phnum: u64, entry: u64, image: u64, info: u64): (ws: seq<u64>)
    ensures |ws| == 14
  {
    [AT_PHNUM, phnum, AT_PHENT, phent, AT_ENTRY, entry, AT_PHDR, phdr, AT_BASE, image,
     AT_DUCK, info, AT_PAGESZ, PAGE_SIZE]
  }

  function WordBytes(ws: seq<u64>): (s: seq<byte>)
    ensures |s| == 8 * |ws|
  {
    if ws == [] then [] else LeBytes(ws[0], 8) + WordBytes(ws[1..])
  }

  /** A stored word list reads back word by word. */
  lemma {:induction false} WordBytesAt(ws: seq<u64>, k: nat)
    requires k < |ws|
    ensures WordBytes(ws)[8 * k..8 * k + 8] == LeBytes(ws[k], 8)
  {
    var head, tail := LeBytes(ws[0], 8), WordBytes(ws[1..]);
    if k == 0 {
    } else {
      WordBytesAt(ws[1..], k - 1);
      assert WordBytes(ws)[8 * k..8 * k + 8] == tail[8 * (k - 1)..8 * (k - 1) + 8];
    }
  }

  lemma StoredWord(s: seq<byte>, at: nat, ws: seq<u64>, k: nat)
    requires at + 8 * |ws| <= |s| && k < |ws| && s[at..at + 8 * |ws|] == WordBytes(ws)
    ensures WordAt(s, at + 8 * k) == ws[k]
  {
    hide WordBytes, Le, LeBytes;
    WordBytesAt(ws, k);
    WordRoundTrip(ws[k]);
    SubSlice(s, at, at + 8 * |ws|, 8 * k, 8 * k + 8);
  }

  /** Push `ws` from its last word to its first, below `top`. */
  method PushWords(mem: array<byte>, top: nat, ws: seq<u64>) returns (rsp: nat)
    requires 8 * |ws| <= top <= mem.Length
    modifies mem
    ensures rsp == top - 8 * |ws|
    ensures mem[..] == Put(old(mem[..]), rsp, WordBytes(ws))
  {
    hide Put, LeBytes;
    ghost var before := mem[..];
    rsp := top;
    var i := |ws|;
    PutNothing(before, top);
    assert ws[|ws|..] == [];
    while i > 0
      invariant 0 <= i <= |ws| && rsp == top - 8 * (|ws| - i)
      invariant mem[..] == Put(before, rsp, WordBytes(ws[i..]))
    {
      i := i - 1;
      rsp := rsp - 8;
      assert ws[i..] == [ws[i]] + ws[i + 1..];
      PutBelow(before, rsp, LeBytes(ws[i], 8), WordBytes(ws[i + 1..]));
      Blit(LeBytes(ws[i], 8), mem, rsp);
    }
    assert ws[0..] == ws;
  }

  lemma PutBelow(s: seq<byte>, at: nat, w: seq<byte>, data: seq<byte>)
    requires at + |w| + |data| <= |s|
    ensures Put(Put(s, at + |w|, data), at, w) == Put(s, at, w + data)
  {
  }

  // ---- What the program's C library finds ----

  /** getauxval: the value after the first matching type word; a zero type ends the vector. */
  function Aux(ws: seq<u64>, k: nat, key: u64): Option<u64>
    decreases |ws| - k
  {
    if k + 1 >= |ws| || ws[k] == 0 then None
    else if ws[k] == key then Some(ws[k + 1])
    else Aux(ws, k + 2, key)
  }

  lemma {:induction false} AuxSkip(ws: seq<u64>, k: nat, t: nat, key: u64)
    requires k + 2 * t + 1 < |ws| && ws[k + 2 * t] == key && key != 0
    requires forall u: nat | u < t :: TypeAt(ws, k, u) != 0 && TypeAt(ws, k, u) != key
    ensures Aux(ws, k, key) == Some(ws[k + 2 * t + 1])
    decreases t
  {
    if t == 0 {
    } else {
      var next := k + 2;
      assert TypeAt(ws, k, 0) == ws[k];
      forall u: nat | u < t - 1
        ensures TypeAt(ws, next, u) != 0 && TypeAt(ws, next, u) != key
      {
        assert TypeAt(ws, next, u) == TypeAt(ws, k, u + 1);
      }
      AuxSkip(ws, next, t - 1, key);
    }
  }

  function TypeAt(ws: seq<u64>, k: nat, u: nat): u64 {
    if k + 2 * u < |ws| then ws[k + 2 * u] else 0
  }

  /** argc, argv and envp are empty; every type is found with its value, AT_HWCAP with the second of its two entries. */
  lemma StartupRead(phdr: u64, phent: u64, phnum: u64, entry: u64, image: u64, random: u64, info: u64, rest: seq<u64>)
    ensures
      var ws := StartWords(phdr, phent, phnum, entry, image, random, info) + rest;
      && ws[0] == 0 && ws[1] == 0 && ws[2] == 0
      && Aux(ws, 3, AT_RANDOM) == Some(random) && Aux(ws, 3, AT_PHNUM) == Some(phnum)
      && Aux(ws, 3, AT_PHENT) == Some(phent)
      && Aux(ws, 3, AT_ENTRY) == Some(entry) && Aux(ws, 3, AT_PHDR) == Some(phdr) && Aux(ws, 3, AT_BASE) == Some(image)
      && Aux(ws, 3, AT_DUCK) == Some(info) && Aux(ws, 3, AT_PAGESZ) == Some(PAGE_SIZE)
      && Aux(ws, 3, AT_SECURE) == Some(0)
      && Aux(ws, 3, AT_UID) == Some(1000) && Aux(ws, 3, AT_EUID) == Some(1000)
      && Aux(ws, 3, AT_GID) == Some(1000) && Aux(ws, 3, AT_EGID) == Some(1000)
      && Aux(ws, 3, AT_HWCAP) == Some(2)
  {
    hide Aux, StartWords, ProcessWords, FileWords, TypeAt;
    var ws := StartWords(phdr, phent, phnum, entry, image, random, info) + rest;
    ProcessFound(phdr, phent, phnum, entry, image, random, info, rest);
    FileFound(phdr, phent, phnum, entry, image, random, info, rest);
    FirstWords(phdr, phent, phnum, entry, image, random, info);
  }

  lemma FirstWords(phdr: u64, phent: u64, phnum: u64, entry: u64, image: u64, random: u64, info: u64)
    ensures StartWords(phdr, phent, phnum, entry, image, random, info)[..3] == [0, 0, 0]
  {
  }

  lemma ProcessFound(phdr: u64, phent: u64, phnum: u64, entry: u64, image: u64, random: u64, info: u64, rest: seq<u64>)
    ensures
      var ws := StartWords(phdr, phent, phnum, entry, image, random, info) + rest;
      && Aux(ws, 3, AT_RANDOM) == Some(random) && Aux(ws, 3, AT_SECURE) == Some(0)
      && Aux(ws, 3, AT_UID) == Some(1000) && Aux(ws, 3, AT_EUID) == Some(1000)
      && Aux(ws, 3, AT_GID) == Some(1000) && Aux(ws, 3, AT_EGID) == Some(1000)
      && Aux(ws, 3, AT_HWCAP) == Some(2)
  {
    hide Aux, TypeAt, FileWords;
    var ws := StartWords(phdr, phent, phnum, entry, image, random, info) + rest;
    TypesOf(ws, phdr, phent, phnum, entry, image, random, info, rest);
    assert ws[3..19] == ProcessWords(random);
    AuxFind(ws, 0);
    AuxFind(ws, 1);
    AuxFind(ws, 2);
    AuxFind(ws, 3);
    AuxFind(ws, 4);
    AuxFind(ws, 5);
    AuxFind(ws, 6);
  }

  lemma FileFound(phdr: u64, phent: u64, phnum: u64, entry: u64, image: u64, random: u64, info: u64, rest: seq<u64>)
    ensures
      var ws := StartWords(phdr, phent, phnum, entry, image, random, info) + rest;
      && Aux(ws, 3, AT_PHNUM) == Some(phnum) && Aux(ws, 3, AT_PHENT) == Some(phent)
      && Aux(ws, 3, AT_ENTRY) == Some(entry) && Aux(ws, 3, AT_PHDR) == Some(phdr) && Aux(ws, 3, AT_BASE) == Some(image)
      && Aux(ws, 3, AT_DUCK) == Some(info) && Aux(ws, 3, AT_PAGESZ) == Some(PAGE_SIZE)
  {
    hide Aux, TypeAt, ProcessWords;
    var ws := StartWords(phdr, phent, phnum, entry, image, random, info) + rest;
    TypesOf(ws, phdr, phent, phnum, entry, image, random, info, rest);
    assert ws[19..33] == FileWords(phdr, phent, phnum, entry, image, info);
    AuxFind(ws, 8);
    AuxFind(ws, 9);
    AuxFind(ws, 10);
    AuxFind(ws, 11);
    AuxFind(ws, 12);
    AuxFind(ws, 13);
    AuxFind(ws, 14);
  }

  /** The type words of the auxiliary vector in order. */
  function Types(): seq<u64> {
    [AT_RANDOM, AT_SECURE, AT_EGID, AT_GID, AT_EUID, AT_UID, AT_HWCAP, AT_HWCAP,
     AT_PHNUM, AT_PHENT, AT_ENTRY, AT_PHDR, AT_BASE, AT_DUCK, AT_PAGESZ]
  }

  lemma AuxFind(ws: seq<u64>, t: nat)
    requires t < 15 && t != 7 && |ws| >= START_WORDS
    requires forall u: nat | u < 15 :: TypeAt(ws, 3, u) == Types()[u]
    ensures Aux(ws, 3, Types()[t]) == Some(ws[3 + 2 * t + 1])
  {
    assert ws[3 + 2 * t] == TypeAt(ws, 3, t);
    AuxSkip(ws, 3, t, Types()[t]);
  }

  lemma TypesOf(ws: seq<u64>, phdr: u64, phent: u64, phnum: u64, entry: u64, image: u64, random: u64, info: u64,
      rest: seq<u64>)
    requires ws == StartWords(phdr, phent, phnum, entry, image, random, info) + rest
    ensures forall u: nat | u < 15 :: TypeAt(ws, 3, u) == Types()[u]
  {
  }
}
