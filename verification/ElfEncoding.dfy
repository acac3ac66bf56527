/** The headers of ELF64 as records (chapters 4 and 5 of the System V gABI), and what the loader reads of them. */
module ElfEncoding {
  import opened Machine
  import opened Bytes
  import opened ElfFile

  type u16 = x: int | 0 <= x < 0x1_0000

  type u32 = x: int | 0 <= x < 0x1_0000_0000

  /** Elf64_Phdr, field by field in file order. */
  datatype Elf64Phdr = Elf64Phdr(
    ptype: u32, flags: u32, offset: u64, vaddr: u64, paddr: u64, filesz: u64, memsz: u64, align: u64)
  {
    function Encode(): (s: seq<byte>)
      ensures |s| == PHDR_SIZE
    {
      LeBytes(ptype, 4) + LeBytes(flags, 4) + LeBytes(offset, 8) + LeBytes(vaddr, 8)
      + LeBytes(paddr, 8) + LeBytes(filesz, 8) + LeBytes(memsz, 8) + LeBytes(align, 8)
    }
  }

  /** Elf64_Ehdr, field by field in file order. */
  datatype Elf64Ehdr = Elf64Ehdr(
    ident: seq<byte>, etype: u16, machine: u16, version: u32, entry: u64, phoff: u64, shoff: u64, flags: u32,
    ehsize: u16, phentsize: u16, phnum: u16, shentsize: u16, shnum: u16, shstrndx: u16)
  {
    function Encode(): (s: seq<byte>)
      requires |ident| == 16
      ensures |s| == EHDR_SIZE
    {
      ident + LeBytes(etype, 2) + LeBytes(machine, 2) + LeBytes(version, 4)
      + LeBytes(entry, 8) + LeBytes(phoff, 8) + LeBytes(shoff, 8) + LeBytes(flags, 4)
      + LeBytes(ehsize, 2) + LeBytes(phentsize, 2) + LeBytes(phnum, 2)
      + LeBytes(shentsize, 2) + LeBytes(shnum, 2) + LeBytes(shstrndx, 2)
    }
  }

  lemma FieldReads(f: seq<byte>, off: nat, v: nat, n: nat)
    requires (n == 2 && v < 0x1_0000) || (n == 4 && v < 0x1_0000_0000) || (n == 8 && v < W)
    requires off + n <= |f| && f[off..off + n] == LeBytes(v, n)
    ensures Field(f, off, n) == v
  {
    assert Pow256(2) == 0x1_0000;
    assert Pow256(4) == 0x1_0000 * Pow256(2);
    assert Pow256(6) == 0x1_0000 * Pow256(4);
    assert Pow256(8) == 0x1_0000 * Pow256(6);
    LeRoundTrip(v, n);
  }

  /** A field of a record that lies in the file. */
  lemma RecordField(pre: seq<byte>, r: seq<byte>, post: seq<byte>, k: nat, v: nat, n: nat)
    requires (n == 2 && v < 0x1_0000) || (n == 4 && v < 0x1_0000_0000) || (n == 8 && v < W)
    requires k + n <= |r| && r[k..k + n] == LeBytes(v, n)
    ensures Field(pre + r + post, |pre| + k, n) == v
  {
    hide Field, LeBytes;
    var f := pre + r + post;
    assert f[|pre|..|pre| + |r|] == r;
    SubSlice(f, |pre|, |pre| + |r|, k, k + n);
    FieldReads(f, |pre| + k, v, n);
  }

  /** Wherever a program header lies in a file, the loader reads exactly its fields. */
  lemma PhdrDecodes(pre: seq<byte>, p: Elf64Phdr, post: seq<byte>)
    ensures PhdrAt(pre + p.Encode() + post, |pre|) == Phdr(p.ptype, p.offset, p.vaddr, p.filesz, p.memsz, p.align)
  {
    hide Field, LeBytes;
    var r := p.Encode();
    PhdrSlices(p);
    RecordField(pre, r, post, 0, p.ptype, 4);
    RecordField(pre, r, post, 8, p.offset, 8);
    RecordField(pre, r, post, 16, p.vaddr, 8);
    RecordField(pre, r, post, 32, p.filesz, 8);
    RecordField(pre, r, post, 40, p.memsz, 8);
    RecordField(pre, r, post, 48, p.align, 8);
  }

  lemma PhdrSlices(p: Elf64Phdr)
    ensures
      var r := p.Encode();
      && r[0..4] == LeBytes(p.ptype, 4) && r[8..16] == LeBytes(p.offset, 8) && r[16..24] == LeBytes(p.vaddr, 8)
      && r[32..40] == LeBytes(p.filesz, 8) && r[40..48] == LeBytes(p.memsz, 8) && r[48..56] == LeBytes(p.align, 8)
  {
    hide LeBytes;
  }

  lemma EhdrSlices(h: Elf64Ehdr)
    requires |h.ident| == 16
    ensures
      var r := h.Encode();
      && r[0..16] == h.ident && r[16..18] == LeBytes(h.etype, 2) && r[18..20] == LeBytes(h.machine, 2)
      && r[20..24] == LeBytes(h.version, 4) && r[24..32] == LeBytes(h.entry, 8) && r[32..40] == LeBytes(h.phoff, 8)
      && r[54..56] == LeBytes(h.phentsize, 2) && r[56..58] == LeBytes(h.phnum, 2)
  {
    hide LeBytes;
  }

  /** Program header `i` of a file, if its bytes are those of `p`. */
  lemma SegDecodes(f: seq<byte>, i: nat, p: Elf64Phdr)
    requires |f| >= EHDR_SIZE && Inside(f, i) && f[PhdrOff(f, i)..PhdrOff(f, i) + PHDR_SIZE] == p.Encode()
    ensures Seg(f, i) == Phdr(p.ptype, p.offset, p.vaddr, p.filesz, p.memsz, p.align)
  {
    hide PhdrAt, PhdrOff, Elf64Phdr.Encode;
    var off := PhdrOff(f, i);
    PhdrDecodes(f[..off], p, f[off + PHDR_SIZE..]);
    assert f[..off] + p.Encode() + f[off + PHDR_SIZE..] == f;
  }

  /** Identification of a 64-bit little-endian executable for this machine. */
  predicate Executable(h: Elf64Ehdr) {
    && |h.ident| == 16 && h.ident[..4] == [0x7f, 'E' as byte, 'L' as byte, 'F' as byte]
    && h.ident[4..7] == [2, 1, 1] && (h.ident[7] == 0 || h.ident[7] == 3)
    && h.etype == 2 && h.machine == 62 && h.version == 1
  }

  /** From a file that starts with a header the loader reads exactly its fields, and accepts exactly executables. */
  lemma EhdrDecodes(h: Elf64Ehdr, rest: seq<byte>)
    requires |h.ident| == 16
    ensures
      var f := h.Encode() + rest;
      && EhdrOf(f) == Ehdr(h.entry, h.phoff, h.phentsize, h.phnum)
      && (IdentOk(f) <==> Executable(h))
      && (HeaderOk(f) <==> Executable(h) && h.phoff < |f| && h.phentsize < |f| && h.phnum < |f|)
  {
    hide Field, LeBytes, Elf64Ehdr.Encode;
    var r := h.Encode();
    var f := r + rest;
    assert [] + r + rest == f;
    EhdrSlices(h);
    RecordField([], r, rest, 16, h.etype, 2);
    RecordField([], r, rest, 18, h.machine, 2);
    RecordField([], r, rest, 20, h.version, 4);
    RecordField([], r, rest, 24, h.entry, 8);
    RecordField([], r, rest, 32, h.phoff, 8);
    RecordField([], r, rest, 54, h.phentsize, 2);
    RecordField([], r, rest, 56, h.phnum, 2);
    IdentBytes(h.ident, f);
  }

  lemma IdentBytes(ident: seq<byte>, f: seq<byte>)
    requires |ident| == 16 && |f| >= 64 && f[0..16] == ident
    ensures ident[..4] == [0x7f, 'E' as byte, 'L' as byte, 'F' as byte] <==>
              f[0] == 0x7f && f[1] == 0x45 && f[2] == 0x4c && f[3] == 0x46
    ensures ident[4..7] == [2, 1, 1] <==> f[4] == 2 && f[5] == 1 && f[6] == 1
    ensures ident[7] == f[7]
  {
    assert forall i | 0 <= i < 16 :: ident[i] == f[i];
    var magic, kind := ident[..4], ident[4..7];
    assert magic[0] == f[0] && magic[1] == f[1] && magic[2] == f[2] && magic[3] == f[3];
    assert kind[0] == f[4] && kind[1] == f[5] && kind[2] == f[6];
    if f[4] == 2 && f[5] == 1 && f[6] == 1 {
      assert kind == [2, 1, 1];
    }
    if f[0] == 0x7f && f[1] == 0x45 && f[2] == 0x4c && f[3] == 0x46 {
      assert magic == [0x7f, 'E' as byte, 'L' as byte, 'F' as byte];
    }
  }
}
