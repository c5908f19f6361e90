/**
 The release check that a Linux binary is self-contained, over any byte string
 (System V gABI, chapter 5, Program Header and Dynamic Section). Numbers are
 unbounded, as in the script.
 */
module ElfChecker {

  type Byte = b: int | 0 <= b < 256

  const ELF_HEADER_SIZE: nat := 64
  const PROGRAM_HEADER_SIZE: nat := 56
  const DYNAMIC_ENTRY_SIZE: nat := 16
  const ET_EXEC: nat := 2
  const ET_DYN: nat := 3
  const PT_LOAD: nat := 1
  const PT_DYNAMIC: nat := 2
  const PT_INTERP: nat := 3
  const DT_NULL: int := 0
  const DT_NEEDED: int := 1

  // ---- unpacking --------------------------------------------------------

  /** A little-endian unsigned number. The precondition is that it lies in the data. */
  function Unsigned(data: seq<Byte>, offset: nat, size: nat): nat
    requires offset + size <= |data|
    decreases size
  {
    if size == 0 then 0 else data[offset] as nat + 256 * Unsigned(data, offset + 1, size - 1)
  }

  /** A little-endian two's complement number of eight bytes. */
  function Signed64(data: seq<Byte>, offset: nat): int
    requires offset + 8 <= |data|
  {
    var n := Unsigned(data, offset, 8);
    if n >= 0x8000_0000_0000_0000 then n - 0x1_0000_0000_0000_0000 else n
  }

  datatype ProgramHeader = ProgramHeader(
    kind: nat, flags: nat, offset: nat, address: nat, fileSize: nat, memorySize: nat)

  function UnpackProgramHeader(data: seq<Byte>, at: nat): ProgramHeader
    requires at + PROGRAM_HEADER_SIZE <= |data|
  {
    ProgramHeader(Unsigned(data, at, 4), Unsigned(data, at + 4, 4), Unsigned(data, at + 8, 8),
                  Unsigned(data, at + 16, 8), Unsigned(data, at + 32, 8), Unsigned(data, at + 40, 8))
  }

  datatype FileHeader = FileHeader(
    kind: nat, machine: nat, version: nat, entry: nat, programOffset: nat, headerSize: nat, entrySize: nat, count: nat)

  function UnpackFileHeader(data: seq<Byte>): FileHeader
    requires |data| >= ELF_HEADER_SIZE
  {
    FileHeader(Unsigned(data, 16, 2), Unsigned(data, 18, 2), Unsigned(data, 20, 4), Unsigned(data, 24, 8),
               Unsigned(data, 32, 8), Unsigned(data, 52, 2), Unsigned(data, 54, 2), Unsigned(data, 56, 2))
  }

  function Tag(data: seq<Byte>, at: nat): int
    requires at + DYNAMIC_ENTRY_SIZE <= |data|
  {
    Signed64(data, at)
  }

  // ---- what is accepted -------------------------------------------------

  predicate GoodFileHeader(data: seq<Byte>, machine: nat) {
    && |data| >= ELF_HEADER_SIZE
    && data[..4] == [0x7f, 0x45, 0x4c, 0x46] && data[4] == 2 && data[5] == 1 && data[6] == 1
    && var h := UnpackFileHeader(data);
       && h.version == 1 && h.headerSize == ELF_HEADER_SIZE
       && (h.kind == ET_EXEC || h.kind == ET_DYN) && h.machine == machine
       && h.count > 0 && TableInFile(h, |data|)
  }

  predicate TableInFile(h: FileHeader, length: nat) {
    h.entrySize >= PROGRAM_HEADER_SIZE && h.programOffset + h.entrySize * h.count <= length
  }

  lemma EntryInTable(h: FileHeader, length: nat, i: nat)
    requires TableInFile(h, length) && i < h.count
    ensures h.programOffset + i * h.entrySize + PROGRAM_HEADER_SIZE <= length
  {
    assert (i + 1) * h.entrySize <= h.count * h.entrySize;
  }

  function Segment(data: seq<Byte>, h: FileHeader, i: nat): ProgramHeader
    requires TableInFile(h, |data|) && i < h.count
  {
    EntryInTable(h, |data|, i);
    UnpackProgramHeader(data, h.programOffset + i * h.entrySize)
  }

  function Segments(data: seq<Byte>, h: FileHeader): (hs: seq<ProgramHeader>)
    requires TableInFile(h, |data|)
    ensures |hs| == h.count
    ensures forall i :: 0 <= i < |hs| ==> hs[i] == Segment(data, h, i)
  {
    seq(h.count, i requires 0 <= i < h.count => Segment(data, h, i))
  }

  /** No interpreter, and whatever is loaded lies in the file. */
  predicate GoodSegment(h: ProgramHeader, length: nat) {
    && h.kind != PT_INTERP
    && (h.kind == PT_LOAD || h.kind == PT_DYNAMIC ==> h.fileSize <= h.memorySize && h.offset + h.fileSize <= length)
  }

  /** A load segment whose file-backed, executable part holds the entry point. */
  predicate HoldsEntry(h: ProgramHeader, entry: nat) {
    h.kind == PT_LOAD && h.flags % 2 == 1 && h.fileSize > 0 && h.address <= entry < h.address + h.fileSize
  }

  /** The load segment covers the dynamic one, in the file and in memory, equally displaced. */
  predicate Maps(load: ProgramHeader, dynamic: ProgramHeader) {
    && load.kind == PT_LOAD
    && load.offset <= dynamic.offset && dynamic.offset + dynamic.fileSize <= load.offset + load.fileSize
    && load.address <= dynamic.address && dynamic.address + dynamic.fileSize <= load.address + load.fileSize
    && dynamic.address - load.address == dynamic.offset - load.offset
  }

  /** The entries up to the first DT_NULL, which must be there, name no shared library. */
  predicate SelfContained(data: seq<Byte>, offset: nat, size: nat)
    requires offset + size <= |data|
  {
    && size % DYNAMIC_ENTRY_SIZE == 0
    && exists n :: 0 <= n < size / DYNAMIC_ENTRY_SIZE && EndsAt(data, offset, size, n)
  }

  predicate EndsAt(data: seq<Byte>, offset: nat, size: nat, n: nat)
    requires offset + size <= |data| && n < size / DYNAMIC_ENTRY_SIZE
  {
    && Tag(data, offset + n * DYNAMIC_ENTRY_SIZE) == DT_NULL
    && forall k :: 0 <= k < n ==>
         && Tag(data, offset + k * DYNAMIC_ENTRY_SIZE) != DT_NEEDED
         && Tag(data, offset + k * DYNAMIC_ENTRY_SIZE) != DT_NULL
  }

  predicate GoodDynamic(data: seq<Byte>, hs: seq<ProgramHeader>, d: ProgramHeader) {
    && d.fileSize > 0
    && (exists load :: load in hs && Maps(load, d))
    && d.offset + d.fileSize <= |data|
    && SelfContained(data, d.offset, d.fileSize)
  }

  // GLIBC_, GLIBCXX_ and CXXABI_
  const ABI_PREFIXES: seq<seq<Byte>> := [
    [0x47, 0x4c, 0x49, 0x42, 0x43, 0x5f],
    [0x47, 0x4c, 0x49, 0x42, 0x43, 0x58, 0x58, 0x5f],
    [0x43, 0x58, 0x58, 0x41, 0x42, 0x49, 0x5f]]

  predicate IsVersionByte(b: Byte) {
    0x41 <= b <= 0x5a || 0x61 <= b <= 0x7a || 0x30 <= b <= 0x39 || b == 0x5f || b == 0x2e || b == 0x2d
  }

  predicate AbiAt(data: seq<Byte>, at: nat, prefix: seq<Byte>) {
    && at + |prefix| < |data|
    && data[at..at + |prefix|] == prefix
    && IsVersionByte(data[at + |prefix|])
  }

  predicate NamesAbi(data: seq<Byte>) {
    exists at: nat, prefix :: at < |data| && prefix in ABI_PREFIXES && AbiAt(data, at, prefix)
  }

  ghost predicate Acceptable(data: seq<Byte>, machine: nat) {
    && GoodFileHeader(data, machine)
    && var header := UnpackFileHeader(data);
       var hs, entry := Segments(data, header), header.entry;
       && (forall h :: h in hs ==> GoodSegment(h, |data|))
       && entry != 0 && (exists h :: h in hs && HoldsEntry(h, entry))
       && (forall d :: d in hs && d.kind == PT_DYNAMIC ==> GoodDynamic(data, hs, d))
       && !NamesAbi(data)
  }

  // ---- the script -------------------------------------------------------

  datatype Architecture = X86_64 | Aarch64

  /** Machine number and architecture of a release asset, by its file name. */
  function AssetMachine(name: string): (r: (nat, Architecture))
    requires KnownAsset(name)
  {
    if name == "saiai-linux-x86_64" then (62, X86_64) else (183, Aarch64)
  }

  predicate KnownAsset(name: string) {
    name == "saiai-linux-x86_64" || name == "saiai-linux-aarch64"
  }

  datatype Verdict = Accepted(architecture: Architecture) | Rejected

  method CheckDynamicEntries(data: seq<Byte>, offset: nat, size: nat) returns (ok: bool)
    requires offset + size <= |data| && size % DYNAMIC_ENTRY_SIZE == 0
    ensures ok == SelfContained(data, offset, size)
  {
    hide Signed64;
    var terminated := false;
    var at: nat := 0;
    ghost var n: nat := 0;
    while at < size
      invariant at <= size && at == n * DYNAMIC_ENTRY_SIZE && !terminated
      invariant forall k :: 0 <= k < n ==>
        && Tag(data, offset + k * DYNAMIC_ENTRY_SIZE) != DT_NEEDED
        && Tag(data, offset + k * DYNAMIC_ENTRY_SIZE) != DT_NULL
    {
      var tag := Tag(data, offset + at);
      if tag == DT_NEEDED {
        NeededMeansNot(data, offset, size, n);
        return false;
      }
      if tag == DT_NULL {
        terminated := true;
        assert EndsAt(data, offset, size, n);
        break;
      }
      at := at + DYNAMIC_ENTRY_SIZE;
      n := n + 1;
    }
    return terminated;
  }

  lemma NeededMeansNot(data: seq<Byte>, offset: nat, size: nat, n: nat)
    requires offset + size <= |data| && size % DYNAMIC_ENTRY_SIZE == 0 && n < size / DYNAMIC_ENTRY_SIZE
    requires Tag(data, offset + n * DYNAMIC_ENTRY_SIZE) == DT_NEEDED
    requires forall k :: 0 <= k < n ==> Tag(data, offset + k * DYNAMIC_ENTRY_SIZE) != DT_NULL
    ensures !SelfContained(data, offset, size)
  {
    hide Signed64;
  }

  method ReadSegments(data: seq<Byte>, header: FileHeader) returns (hs: seq<ProgramHeader>, ok: bool)
    requires TableInFile(header, |data|)
    ensures ok <==> forall h :: h in Segments(data, header) ==> GoodSegment(h, |data|)
    ensures ok ==> hs == Segments(data, header)
  {
    hide UnpackProgramHeader, GoodSegment;
    hs := [];
    ghost var all := Segments(data, header);
    var i := 0;
    while i < header.count
      invariant 0 <= i <= header.count && hs == all[..i]
      invariant forall h :: h in hs ==> GoodSegment(h, |data|)
    {
      var h := Segment(data, header, i);
      assert all[i] == h && h in all;
      if !GoodSegment(h, |data|) {
        return hs, false;
      }
      assert all[..i + 1] == all[..i] + [h];
      hs := hs + [h];
      i := i + 1;
    }
    assert all[..i] == all;
    return hs, true;
  }

  method CheckDynamicSegments(data: seq<Byte>, hs: seq<ProgramHeader>) returns (ok: bool)
    requires forall h :: h in hs ==> GoodSegment(h, |data|)
    ensures ok <==> forall d :: d in hs && d.kind == PT_DYNAMIC ==> GoodDynamic(data, hs, d)
  {
    hide Maps, SelfContained;
    var i := 0;
    while i < |hs|
      invariant 0 <= i <= |hs|
      invariant forall k :: 0 <= k < i && hs[k].kind == PT_DYNAMIC ==> GoodDynamic(data, hs, hs[k])
    {
      var d := hs[i];
      assert d in hs;
      i := i + 1;
      if d.kind != PT_DYNAMIC {
        continue;
      }
      if d.fileSize == 0 || !(exists load :: load in hs && Maps(load, d)) {
        return false;
      }
      if d.fileSize % DYNAMIC_ENTRY_SIZE != 0 {
        PartialEntry(data, d);
        return false;
      }
      var contained := CheckDynamicEntries(data, d.offset, d.fileSize);
      if !contained {
        return false;
      }
    }
    return true;
  }

  lemma PartialEntry(data: seq<Byte>, d: ProgramHeader)
    requires d.offset + d.fileSize <= |data| && d.fileSize % DYNAMIC_ENTRY_SIZE != 0
    ensures !SelfContained(data, d.offset, d.fileSize)
  {
  }

  method FindAbi(data: seq<Byte>) returns (found: bool)
    ensures found == NamesAbi(data)
  {
    hide AbiAt;
    var at := 0;
    while at < |data|
      invariant 0 <= at <= |data|
      invariant forall i: nat, prefix :: i < at && prefix in ABI_PREFIXES ==> !AbiAt(data, i, prefix)
    {
      if exists prefix :: prefix in ABI_PREFIXES && AbiAt(data, at, prefix) {
        return true;
      }
      at := at + 1;
    }
    return false;
  }

  /** Accepts exactly the acceptable files under a known name. Every unpacking lies in the data:
      that is the precondition of `Unsigned`, met at each use. */
  method VerifyBinary(name: string, data: seq<Byte>) returns (v: Verdict)
    ensures v.Accepted? <==> KnownAsset(name) && Acceptable(data, AssetMachine(name).0)
    ensures v.Accepted? ==> v.architecture == AssetMachine(name).1
  {
    hide GoodFileHeader, GoodSegment, HoldsEntry, GoodDynamic, NamesAbi, Segments, UnpackFileHeader;
    if !KnownAsset(name) {
      return Rejected;
    }
    var (machine, architecture) := AssetMachine(name);
    if !GoodFileHeader(data, machine) {
      return Rejected;
    }
    HeaderIsThere(data, machine);
    var header := UnpackFileHeader(data);
    var hs, readable := ReadSegments(data, header);
    if !readable {
      return Rejected;
    }
    var entry := header.entry;
    if entry == 0 || !(exists h :: h in hs && HoldsEntry(h, entry)) {
      return Rejected;
    }
    var dynamics := CheckDynamicSegments(data, hs);
    if !dynamics {
      return Rejected;
    }
    var forbidden := FindAbi(data);
    if forbidden {
      return Rejected;
    }
    return Accepted(architecture);
  }

  lemma HeaderIsThere(data: seq<Byte>, machine: nat)
    requires GoodFileHeader(data, machine)
    ensures |data| >= ELF_HEADER_SIZE && TableInFile(UnpackFileHeader(data), |data|)
  {
  }
}
