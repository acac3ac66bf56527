/** The parts of an ELF64 file that the loader reads, field by field (chapters 4 and 5 of the System V gABI). */
module ElfFile {
  import opened Machine
  import opened Bytes

  const EHDR_SIZE: int := 64
  const PHDR_SIZE: int := 56
  const PT_LOAD: int := 1

  function Field(f: seq<byte>, off: nat, n: nat): (v: nat)
    requires off + n <= |f|
    ensures n == 2 ==> v < 0x1_0000
    ensures n == 4 ==> v < 0x1_0000_0000
    ensures n == 8 ==> v < W
  {
    Le(f[off..off + n])
  }

  datatype Ehdr = Ehdr(entry: u64, phoff: u64, phentsize: nat, phnum: nat)

  function EhdrOf(f: seq<byte>): (h: Ehdr)
    requires |f| >= EHDR_SIZE
    ensures h.phentsize < 0x1_0000 && h.phnum < 0x1_0000
  {
    Ehdr(Field(f, 24, 8), Field(f, 32, 8), Field(f, 54, 2), Field(f, 56, 2))
  }

  /** Magic, class, byte order, versions, OS ABI, type and machine. */
  predicate IdentOk(f: seq<byte>)
    requires |f| >= EHDR_SIZE
  {
    && f[0] == 0x7f && f[1] == 0x45 && f[2] == 0x4c && f[3] == 0x46
    && f[4] == 2                      // ELFCLASS64
    && f[5] == 1                      // ELFDATA2LSB
    && f[6] == 1                      // EV_CURRENT
    && (f[7] == 0 || f[7] == 3)       // ELFOSABI_SYSV or ELFOSABI_LINUX
    && Field(f, 16, 2) == 2           // ET_EXEC
    && Field(f, 18, 2) == 62          // EM_X86_64
    && Field(f, 20, 4) == 1           // EV_CURRENT
  }

  predicate HeaderOk(f: seq<byte>) {
    && |f| >= EHDR_SIZE && IdentOk(f)
    && EhdrOf(f).phoff < |f| && EhdrOf(f).phentsize < |f| && EhdrOf(f).phnum < |f|
  }

  datatype Phdr = Phdr(ptype: nat, offset: u64, vaddr: u64, filesz: u64, memsz: u64, align: u64)

  function PhdrAt(f: seq<byte>, off: nat): Phdr
    requires off + PHDR_SIZE <= |f|
  {
    Phdr(Field(f, off, 4), Field(f, off + 8, 8), Field(f, off + 16, 8), Field(f, off + 32, 8),
         Field(f, off + 40, 8), Field(f, off + 48, 8))
  }

  function PhdrOff(f: seq<byte>, i: nat): nat
    requires |f| >= EHDR_SIZE
  {
    EhdrOf(f).phoff + i * EhdrOf(f).phentsize
  }

  /** Program header `i` lies inside the file. */
  predicate Inside(f: seq<byte>, i: nat)
    requires |f| >= EHDR_SIZE
  {
    PhdrOff(f, i) + PHDR_SIZE <= |f|
  }

  function Seg(f: seq<byte>, i: nat): Phdr
    requires |f| >= EHDR_SIZE && Inside(f, i)
  {
    PhdrAt(f, PhdrOff(f, i))
  }

  predicate IsLoad(f: seq<byte>, i: nat)
    requires |f| >= EHDR_SIZE && Inside(f, i)
  {
    Seg(f, i).ptype == PT_LOAD
  }

  // ---- What a loadable segment must satisfy ----

  /** Over unbounded integers. */
  predicate SegOk(p: Phdr, len: nat) {
    && (p.filesz != 0 ==> p.offset + p.filesz <= len)
    && (p.align == PAGE_SIZE || p.align == HUGE_PAGE_SIZE)
    && p.filesz <= p.memsz
    && p.vaddr + p.memsz < W
  }

  /** As the loader computes it: sums wrap. */
  predicate SegOk64(p: Phdr, len: nat) {
    && (p.filesz != 0 ==> p.offset <= len && Wrap(p.offset + p.filesz) <= len)
    && (p.align == PAGE_SIZE || p.align == HUGE_PAGE_SIZE)
    && p.filesz <= p.memsz
    && p.vaddr <= Wrap(p.vaddr + p.memsz)
  }

  /** The in-file check misses exactly the segments whose offset and size wrap; those need more than 2^64 - 2^32
      bytes. */
  lemma SegChecksDiffer(p: Phdr, len: nat)
    requires len < 0x1_0000_0000
    ensures SegOk(p, len) <==> SegOk64(p, len) && (p.filesz != 0 ==> p.offset + p.filesz < W)
    ensures SegOk64(p, len) && !SegOk(p, len) ==> p.vaddr + p.memsz > W - 0x1_0000_0000
    ensures SegOk64(p, len) ==> p.vaddr + p.memsz < W
  {
  }

  /** A segment whose offset and size wrap to 0 passes the loader's in-file check in a file of 100 bytes. */
  lemma InFileCheckIncomplete()
    ensures exists p: Phdr :: SegOk64(p, 100) && !SegOk(p, 100)
  {
    var p := Phdr(PT_LOAD, 1, 0, W - 1, W - 1, PAGE_SIZE);
    assert SegOk64(p, 100) && !SegOk(p, 100);
  }

  // ---- Lowest and highest loaded address ----

  ghost function MinVaddr(f: seq<byte>, n: nat): u64
    requires |f| >= EHDR_SIZE && forall i | 0 <= i < n :: Inside(f, i)
  {
    if n == 0 then W - 1
    else if IsLoad(f, n - 1) then Min(MinVaddr(f, n - 1), Seg(f, n - 1).vaddr)
    else MinVaddr(f, n - 1)
  }

  ghost function MaxEnd(f: seq<byte>, n: nat): nat
    requires |f| >= EHDR_SIZE && forall i | 0 <= i < n :: Inside(f, i)
  {
    if n == 0 then 0
    else if IsLoad(f, n - 1) then Max(MaxEnd(f, n - 1), Seg(f, n - 1).vaddr + Seg(f, n - 1).memsz)
    else MaxEnd(f, n - 1)
  }

  /** Every loadable segment lies between the two. */
  lemma {:induction false} SegmentWithin(f: seq<byte>, n: nat, i: nat)
    requires |f| >= EHDR_SIZE && forall k | 0 <= k < n :: Inside(f, k)
    requires i < n && IsLoad(f, i)
    ensures MinVaddr(f, n) <= Seg(f, i).vaddr && Seg(f, i).vaddr + Seg(f, i).memsz <= MaxEnd(f, n)
  {
    hide Seg, IsLoad, Inside;
    if i == n - 1 {
    } else {
      SegmentWithin(f, n - 1, i);
    }
  }
}
