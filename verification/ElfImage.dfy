/**
 An executable written down after the structures of kernel/loader/elf.h: the
 loader reads from it the entry point and the program headers it was made from.
 */
module ElfImage {
  import opened Bytes
  import opened ElfLoader

  /** Elf64_Phdr */
  datatype Program = Program(ptype: nat, flags: nat, offset: nat, vaddr: nat, paddr: nat, filesz: nat, memsz: nat,
                             align: nat)

  predicate Written(p: Program) {
    && p.ptype < Pow256(4) && p.offset < Pow256(8) && p.vaddr < Pow256(8)
    && p.filesz < Pow256(8) && p.memsz < Pow256(8)
  }

  function ProgramBytes(p: Program): (s: seq<Byte>)
    ensures |s| == 56
  {
    LeBytes(p.ptype, 4) + LeBytes(p.flags, 4) + LeBytes(p.offset, 8) + LeBytes(p.vaddr, 8) + LeBytes(p.paddr, 8) +
    LeBytes(p.filesz, 8) + LeBytes(p.memsz, 8) + LeBytes(p.align, 8)
  }

  /** Elf64_Ehdr of a 64-bit program for x86-64 with `count` program headers of `size` bytes from `at` on. */
  function HeadBytes(entry: nat, at: nat, size: nat, count: nat, sections: nat, flags: nat): (s: seq<Byte>)
    ensures |s| == 64
  {
    [0x7F, 0x45, 0x4C, 0x46, 2, 1, 1, 0] + LeBytes(0, 8) + LeBytes(2, 2) + LeBytes(62, 2) + LeBytes(1, 4) +
    LeBytes(entry, 8) + LeBytes(at, 8) + LeBytes(sections, 8) + LeBytes(flags, 4) + LeBytes(64, 2) +
    LeBytes(size, 2) + LeBytes(count, 2) + LeBytes(0, 6)
  }

  /** The file starts with the head and has the program headers where that says. */
  ghost predicate IsImage(data: seq<Byte>, entry: nat, at: nat, size: nat, programs: seq<Program>, sections: nat,
                          flags: nat) {
    && |data| >= 64 && data[..64] == HeadBytes(entry, at, size, |programs|, sections, flags)
    && forall i: nat :: i < |programs| ==>
         at + i * size + 56 <= |data| && data[at + i * size..at + i * size + 56] == ProgramBytes(programs[i])
  }

  /** A word that was written at `i`. */
  lemma WordReads(s: seq<Byte>, i: nat, n: nat, v: nat)
    requires i + n <= |s| && v < Pow256(n) && s[i..i + n] == LeBytes(v, n)
    ensures Le(s, i, n) == v
  {
    forall j | i <= j < i + n ensures s[j] == LeBytes(v, n)[j - i] { assert s[j] == s[i..i + n][j - i]; }
    LeRoundTrip(s, i, n, v);
  }

  /** A word of a part of the file. */
  lemma {:induction false} PartReads(data: seq<Byte>, p: nat, s: seq<Byte>, i: nat, n: nat)
    requires p + |s| <= |data| && data[p..p + |s|] == s && i + n <= |s|
    ensures Le(data, p + i, n) == Le(s, i, n)
    decreases n
  {
    if n > 0 {
      assert data[p + i] == data[p..p + |s|][i] == s[i];
      PartReads(data, p, s, i + 1, n - 1);
    }
  }

  lemma ProgramWords(p: Program)
    requires Written(p)
    ensures var s := ProgramBytes(p);
            && Le(s, 0, 4) == p.ptype && Le(s, 8, 8) == p.offset && Le(s, 16, 8) == p.vaddr
            && Le(s, 32, 8) == p.filesz && Le(s, 40, 8) == p.memsz
  {
    hide LeBytes, Le, Pow256;
    var s := ProgramBytes(p);
    assert s[0..4] == LeBytes(p.ptype, 4) && s[8..16] == LeBytes(p.offset, 8) && s[16..24] == LeBytes(p.vaddr, 8);
    assert s[32..40] == LeBytes(p.filesz, 8) && s[40..48] == LeBytes(p.memsz, 8);
    WordReads(s, 0, 4, p.ptype);
    WordReads(s, 8, 8, p.offset);
    WordReads(s, 16, 8, p.vaddr);
    WordReads(s, 32, 8, p.filesz);
    WordReads(s, 40, 8, p.memsz);
  }

  lemma HeadWords(entry: nat, at: nat, size: nat, count: nat, sections: nat, flags: nat)
    requires entry < Pow256(8) && at < Pow256(8) && size < Pow256(2) && count < Pow256(2)
    ensures var s := HeadBytes(entry, at, size, count, sections, flags);
            && Le(s, 0, 4) == 0x464C457F && s[4] == 2 && Le(s, 18, 2) == 0x3E && Le(s, 24, 8) == entry
            && Le(s, 32, 8) == at && Le(s, 54, 2) == size && Le(s, 56, 2) == count
  {
    hide LeBytes, Le, Pow256;
    var s := HeadBytes(entry, at, size, count, sections, flags);
    assert s[18..20] == LeBytes(62, 2) && s[24..32] == LeBytes(entry, 8) && s[32..40] == LeBytes(at, 8);
    assert s[54..56] == LeBytes(size, 2) && s[56..58] == LeBytes(count, 2);
    Spelled(s, 0);
    TwoBytes();
    WordReads(s, 18, 2, 62);
    WordReads(s, 24, 8, entry);
    WordReads(s, 32, 8, at);
    WordReads(s, 54, 2, size);
    WordReads(s, 56, 2, count);
  }

  lemma TwoBytes()
    ensures 62 < Pow256(2)
  {
    assert Pow256(1) == 256;
  }

  /** The loader accepts the header and reads what was written. */
  lemma ImageReads(data: seq<Byte>, entry: nat, at: nat, size: nat, programs: seq<Program>, sections: nat, flags: nat)
    requires entry < Pow256(8) && at < Pow256(8) && size < Pow256(2) && |programs| < Pow256(2)
    requires IsImage(data, entry, at, size, programs, sections, flags)
    ensures HeaderOk(data) && PhdrCount(data) == |programs| && Le(data, 24, XWORD) == entry
    ensures Le(data, 32, XWORD) == at && Le(data, 54, HALF) == size
  {
    hide Le, Pow256, HeadBytes, ProgramBytes;
    HeadWords(entry, at, size, |programs|, sections, flags);
    var s := HeadBytes(entry, at, size, |programs|, sections, flags);
    assert data[0..0 + |s|] == s;
    PartReads(data, 0, s, 0, 4);
    PartReads(data, 0, s, 18, 2);
    PartReads(data, 0, s, 24, 8);
    PartReads(data, 0, s, 32, 8);
    PartReads(data, 0, s, 54, 2);
    PartReads(data, 0, s, 56, 2);
    assert data[4] == data[..64][4];
  }

  /** And each program header, in order. */
  lemma ProgramReads(data: seq<Byte>, entry: nat, at: nat, size: nat, programs: seq<Program>, sections: nat, flags: nat,
                     i: nat)
    requires entry < Pow256(8) && at < Pow256(8) && size < Pow256(2) && |programs| < Pow256(2)
    requires IsImage(data, entry, at, size, programs, sections, flags) && i < |programs| && Written(programs[i])
    ensures HeaderInside(data, i)
    ensures var p := programs[i]; PhdrAt(data, i) == Phdr(p.ptype, p.offset, p.vaddr, p.filesz, p.memsz)
  {
    hide Le, Pow256, HeadBytes, ProgramBytes;
    ImageReads(data, entry, at, size, programs, sections, flags);
    var s, p := ProgramBytes(programs[i]), at + i * size;
    ProgramWords(programs[i]);
    PartReads(data, p, s, 0, 4);
    PartReads(data, p, s, 8, 8);
    PartReads(data, p, s, 16, 8);
    PartReads(data, p, s, 32, 8);
    PartReads(data, p, s, 40, 8);
  }

  /** The pages of a segment cover its bytes, and no page before or behind them. */
  lemma PagesCover(ph: Phdr)
    ensures ph.PageBase() % 4096 == 0 && ph.PageBase() <= ph.vaddr < ph.PageBase() + 4096
    ensures ph.vaddr + ph.memsz <= ph.PageBase() + ph.NumPages() * 4096 < ph.vaddr + ph.memsz + 4096
  {
  }
}
