/**
 What acceptance means once the file is loaded. Segments are brought into memory in
 order, a later one over an earlier one, so what a loader finds at an address is what
 the last segment covering it puts there.
 */
module ElfMemory {
  import opened Text
  import opened ElfChecker

  // ---- memory -----------------------------------------------------------

  predicate Covers(h: ProgramHeader, address: nat) {
    h.kind == PT_LOAD && h.address <= address < h.address + h.memorySize
  }

  predicate AllGood(hs: seq<ProgramHeader>, length: nat) {
    forall h :: h in hs ==> GoodSegment(h, length)
  }

  /** The last segment that covers an address. */
  function Owner(hs: seq<ProgramHeader>, address: nat): (m: Option<nat>)
    ensures m.Some? ==> m.value < |hs| && Covers(hs[m.value], address)
    ensures m.Some? ==> forall j :: m.value < j < |hs| ==> !Covers(hs[j], address)
    ensures m.None? ==> forall j :: 0 <= j < |hs| ==> !Covers(hs[j], address)
  {
    if hs == [] then None
    else
      var last := |hs| - 1;
      if Covers(hs[last], address) then Some(last) else Owner(hs[..last], address)
  }

  /** File bytes as far as there are any, zeros after them. */
  function ByteFrom(data: seq<Byte>, h: ProgramHeader, address: nat): Byte
    requires GoodSegment(h, |data|) && Covers(h, address)
  {
    if address < h.address + h.fileSize then data[h.offset + (address - h.address)] else 0
  }

  function Memory(data: seq<Byte>, hs: seq<ProgramHeader>, address: nat): Option<Byte>
    requires AllGood(hs, |data|)
  {
    match Owner(hs, address)
    case None => None
    case Some(m) => Some(ByteFrom(data, hs[m], address))
  }

  predicate InMemory(data: seq<Byte>, hs: seq<ProgramHeader>, address: nat, bytes: seq<Byte>)
    requires AllGood(hs, |data|)
  {
    forall i :: 0 <= i < |bytes| ==> Memory(data, hs, address + i) == Some(bytes[i])
  }

  // ---- when memory shows what was checked -------------------------------

  function FilePart(data: seq<Byte>, d: ProgramHeader): seq<Byte>
    requires d.offset + d.fileSize <= |data|
  {
    data[d.offset..d.offset + d.fileSize]
  }

  /** Byte `i` of a segment comes into memory from its own place in the file. */
  predicate OwnPlace(hs: seq<ProgramHeader>, d: ProgramHeader, i: nat) {
    var owner := Owner(hs, d.address + i);
    && owner.Some?
    && var h := hs[owner.value];
       d.address + i < h.address + h.fileSize && h.offset + (d.address + i - h.address) == d.offset + i
  }

  predicate Undisturbed(hs: seq<ProgramHeader>, d: ProgramHeader) {
    forall i :: 0 <= i < d.fileSize ==> OwnPlace(hs, d, i)
  }

  lemma UndisturbedIsShown(data: seq<Byte>, hs: seq<ProgramHeader>, d: ProgramHeader)
    requires AllGood(hs, |data|) && d.offset + d.fileSize <= |data| && Undisturbed(hs, d)
    ensures InMemory(data, hs, d.address, FilePart(data, d))
  {
    hide Owner, GoodSegment;
    var part := FilePart(data, d);
    forall i | 0 <= i < |part| ensures Memory(data, hs, d.address + i) == Some(part[i]) {
      assert OwnPlace(hs, d, i);
    }
  }

  lemma OtherPlace(data: seq<Byte>, hs: seq<ProgramHeader>, d: ProgramHeader, i: nat)
    requires AllGood(hs, |data|) && d.offset + i < |data| && !OwnPlace(hs, d, i)
    requires forall k :: 0 <= k < |data| ==> data[k] == if k == d.offset + i then 1 else 0
    ensures Memory(data, hs, d.address + i) != Some(data[d.offset + i])
  {
    var owner := Owner(hs, d.address + i);
    if owner.Some? {
      var h := hs[owner.value];
      assert h in hs && GoodSegment(h, |data|);
      hide Owner, GoodSegment;
      assert ByteFrom(data, h, d.address + i) == 0;
    }
  }

  /** Contents that show a byte is not from its own place. */
  lemma DisturbedIsNotShown(hs: seq<ProgramHeader>, d: ProgramHeader, length: nat, i: nat) returns (data: seq<Byte>)
    requires AllGood(hs, length) && d.offset + d.fileSize <= length && i < d.fileSize && !OwnPlace(hs, d, i)
    ensures |data| == length && Memory(data, hs, d.address + i) != Some(data[d.offset + i])
  {
    data := seq(length, k => if k == d.offset + i then 1 else 0);
    OtherPlace(data, hs, d, i);
  }

  /** Given the headers alone, memory shows a segment's file bytes, whatever they are, exactly
      when the last load segment over each address takes it from the same place in the file. */
  lemma ShownIff(hs: seq<ProgramHeader>, d: ProgramHeader, length: nat)
    requires AllGood(hs, length) && d.offset + d.fileSize <= length
    ensures (forall data: seq<Byte> :: |data| == length ==> InMemory(data, hs, d.address, FilePart(data, d)))
       <==> Undisturbed(hs, d)
  {
    if Undisturbed(hs, d) {
      forall data: seq<Byte> | |data| == length ensures InMemory(data, hs, d.address, FilePart(data, d)) {
        UndisturbedIsShown(data, hs, d);
      }
    } else {
      var i :| 0 <= i < d.fileSize && !OwnPlace(hs, d, i);
      var data := DisturbedIsNotShown(hs, d, length, i);
      assert FilePart(data, d)[i] == data[d.offset + i];
      assert !InMemory(data, hs, d.address, FilePart(data, d));
    }
  }

  // ---- disjoint segments ------------------------------------------------

  predicate Apart(g: ProgramHeader, h: ProgramHeader) {
    g.address + g.memorySize <= h.address || h.address + h.memorySize <= g.address
  }

  predicate Disjoint(hs: seq<ProgramHeader>) {
    forall i, j :: 0 <= i < j < |hs| && hs[i].kind == PT_LOAD && hs[j].kind == PT_LOAD ==> Apart(hs[i], hs[j])
  }

  lemma OnlyOwner(hs: seq<ProgramHeader>, load: ProgramHeader, address: nat)
    requires Disjoint(hs) && load in hs && Covers(load, address)
    ensures var m := Owner(hs, address); m.Some? && hs[m.value] == load
  {
    var m := Owner(hs, address);
    var n :| 0 <= n < |hs| && hs[n] == load;
  }

  lemma DisjointIsUndisturbed(hs: seq<ProgramHeader>, d: ProgramHeader, load: ProgramHeader, length: nat)
    requires Disjoint(hs) && load in hs && Maps(load, d) && GoodSegment(load, length)
    ensures Undisturbed(hs, d)
  {
    forall i | 0 <= i < d.fileSize ensures OwnPlace(hs, d, i) {
      OnlyOwner(hs, load, d.address + i);
    }
  }

  // ---- accepted files ---------------------------------------------------

  lemma {:induction false} UnsignedShift(data: seq<Byte>, part: seq<Byte>, offset: nat, at: nat, size: nat)
    requires at + size <= |part| && offset + at + size <= |data|
    requires forall k :: 0 <= k < |part| && offset + k < |data| ==> part[k] == data[offset + k]
    ensures Unsigned(part, at, size) == Unsigned(data, offset + at, size)
    decreases size
  {
    if size > 0 {
      UnsignedShift(data, part, offset, at + 1, size - 1);
    }
  }

  lemma SameTag(data: seq<Byte>, d: ProgramHeader, at: nat)
    requires d.offset + d.fileSize <= |data| && at + DYNAMIC_ENTRY_SIZE <= d.fileSize
    ensures Tag(FilePart(data, d), at) == Tag(data, d.offset + at)
  {
    UnsignedShift(data, FilePart(data, d), d.offset, at, 8);
    hide Unsigned;
  }

  lemma TableFits(size: nat, n: nat)
    requires n < size / DYNAMIC_ENTRY_SIZE
    ensures (n + 1) * DYNAMIC_ENTRY_SIZE <= size
  {
  }

  lemma SelfContainedPart(data: seq<Byte>, d: ProgramHeader)
    requires d.offset + d.fileSize <= |data| && SelfContained(data, d.offset, d.fileSize)
    ensures SelfContained(FilePart(data, d), 0, d.fileSize)
  {
    hide Tag;
    var part := FilePart(data, d);
    var n: nat :| n < d.fileSize / DYNAMIC_ENTRY_SIZE && EndsAt(data, d.offset, d.fileSize, n);
    TableFits(d.fileSize, n);
    forall k: nat | k <= n
      ensures (k + 1) * DYNAMIC_ENTRY_SIZE <= d.fileSize
           && Tag(part, k * DYNAMIC_ENTRY_SIZE) == Tag(data, d.offset + k * DYNAMIC_ENTRY_SIZE)
    {
      SameTag(data, d, k * DYNAMIC_ENTRY_SIZE);
    }
    hide FilePart;
    assert EndsAt(part, 0, d.fileSize, n);
  }

  /** The bytes in memory where a segment says its table is, up to its size, end at a DT_NULL
      before which no shared library is asked for. */
  ghost predicate RunsAlone(data: seq<Byte>, hs: seq<ProgramHeader>, d: ProgramHeader)
    requires AllGood(hs, |data|)
  {
    exists table: seq<Byte> ::
      |table| == d.fileSize && InMemory(data, hs, d.address, table) && SelfContained(table, 0, d.fileSize)
  }

  lemma UndisturbedRunsAlone(data: seq<Byte>, hs: seq<ProgramHeader>, d: ProgramHeader)
    requires AllGood(hs, |data|) && GoodDynamic(data, hs, d) && Undisturbed(hs, d)
    ensures RunsAlone(data, hs, d)
  {
    UndisturbedIsShown(data, hs, d);
    SelfContainedPart(data, d);
    hide Undisturbed, InMemory, SelfContained, AllGood;
    assert |FilePart(data, d)| == d.fileSize;
  }

  /** What acceptance guarantees at run time: each dynamic table that comes into memory from its
      own place in the file ends there at a DT_NULL before which no shared library is asked for.
      If no two load segments overlap, that is every table, and the instruction at the entry
      point is the file's, out of an executable segment. */
  lemma AcceptedRunsAlone(data: seq<Byte>, machine: nat)
    requires Acceptable(data, machine)
    ensures var header := UnpackFileHeader(data);
            var hs, entry := Segments(data, header), header.entry;
            && AllGood(hs, |data|)
            && (forall d :: d in hs && d.kind == PT_DYNAMIC && Undisturbed(hs, d) ==> RunsAlone(data, hs, d))
            && (Disjoint(hs) ==>
                  && (exists h :: h in hs && HoldsEntry(h, entry) && h.offset + (entry - h.address) < |data|
                                  && Memory(data, hs, entry) == Some(data[h.offset + (entry - h.address)]))
                  && forall d :: d in hs && d.kind == PT_DYNAMIC ==> RunsAlone(data, hs, d))
  {
    HeaderIsThere(data, machine);
    hide GoodFileHeader, Segments, UnpackFileHeader, NamesAbi, GoodDynamic, RunsAlone, GoodSegment, Memory, HoldsEntry,
         Disjoint, Undisturbed;
    var hs, entry := Segments(data, UnpackFileHeader(data)), UnpackFileHeader(data).entry;
    forall d | d in hs && d.kind == PT_DYNAMIC && Undisturbed(hs, d) ensures RunsAlone(data, hs, d) {
      UndisturbedRunsAlone(data, hs, d);
    }
    if Disjoint(hs) {
      EntryIsInMemory(data, hs, entry);
      forall d | d in hs && d.kind == PT_DYNAMIC ensures RunsAlone(data, hs, d) {
        DisjointRunsAlone(data, hs, d);
      }
    }
  }

  lemma EntryIsInMemory(data: seq<Byte>, hs: seq<ProgramHeader>, entry: nat)
    requires Disjoint(hs) && AllGood(hs, |data|) && exists h :: h in hs && HoldsEntry(h, entry)
    ensures exists h :: h in hs && HoldsEntry(h, entry) && h.offset + (entry - h.address) < |data|
                        && Memory(data, hs, entry) == Some(data[h.offset + (entry - h.address)])
  {
    hide Disjoint;
    var h :| h in hs && HoldsEntry(h, entry);
    assert GoodSegment(h, |data|);
    OnlyOwner(hs, h, entry);
  }

  lemma DisjointRunsAlone(data: seq<Byte>, hs: seq<ProgramHeader>, d: ProgramHeader)
    requires Disjoint(hs) && AllGood(hs, |data|) && GoodDynamic(data, hs, d)
    ensures RunsAlone(data, hs, d)
  {
    var load :| load in hs && Maps(load, d);
    DisjointIsUndisturbed(hs, d, load, |data|);
    UndisturbedRunsAlone(data, hs, d);
  }

  // ---- an accepted file that does not run alone -------------------------

  /** A load segment, a dynamic segment in it with nothing but a DT_NULL, and a second load
      segment over the same addresses with a DT_NEEDED. */
  function OverlapByte(i: nat): Byte {
    match i
    case 0 => 0x7f
    case 1 => 0x45
    case 2 => 0x4c
    case 3 => 0x46
    case 4 => 2
    case 5 => 1
    case 6 => 1
    case 16 => 2
    case 18 => 62
    case 20 => 1
    case 24 => 64
    case 32 => 64
    case 52 => 64
    case 54 => 56
    case 56 => 3
    case 64 => 1
    case 68 => 1
    case 72 => 232
    case 80 => 64
    case 96 => 16
    case 104 => 16
    case 120 => 2
    case 128 => 232
    case 136 => 64
    case 152 => 16
    case 160 => 16
    case 176 => 1
    case 184 => 248
    case 192 => 64
    case 208 => 16
    case 216 => 16
    case 248 => 1
    case _ => 0
  }

  function OverlapFile(): (data: seq<Byte>)
    ensures |data| == 264 && forall i :: 0 <= i < 264 ==> data[i] == OverlapByte(i)
  {
    seq(264, i requires 0 <= i < 264 => OverlapByte(i))
  }

  const OVERLAP_LOAD: ProgramHeader := ProgramHeader(PT_LOAD, 1, 232, 64, 16, 16)
  const OVERLAP_DYNAMIC: ProgramHeader := ProgramHeader(PT_DYNAMIC, 0, 232, 64, 16, 16)
  const OVERLAP_LATER: ProgramHeader := ProgramHeader(PT_LOAD, 0, 248, 64, 16, 16)

  const OVERLAP: seq<ProgramHeader> := [OVERLAP_LOAD, OVERLAP_DYNAMIC, OVERLAP_LATER]

  lemma {:induction false} Zeros(data: seq<Byte>, offset: nat, size: nat)
    requires offset + size <= |data| && forall k :: offset <= k < offset + size ==> data[k] == 0
    ensures Unsigned(data, offset, size) == 0
    decreases size
  {
    if size > 0 {
      Zeros(data, offset + 1, size - 1);
    }
  }

  lemma OneByte(data: seq<Byte>, offset: nat, size: nat)
    requires 0 < size && offset + size <= |data|
    requires forall k :: offset < k < offset + size ==> data[k] == 0
    ensures Unsigned(data, offset, size) == data[offset] as nat
  {
    Zeros(data, offset + 1, size - 1);
  }

  /** A field whose first byte alone is not zero. */
  lemma OverlapField(offset: nat, size: nat)
    requires 0 < size && offset + size <= 264
    requires forall k :: offset < k < offset + size ==> OverlapByte(k) == 0
    ensures Unsigned(OverlapFile(), offset, size) == OverlapByte(offset) as nat
  {
    hide Unsigned;
    OneByte(OverlapFile(), offset, size);
  }

  lemma OverlapHeader()
    ensures UnpackFileHeader(OverlapFile()) == FileHeader(2, 62, 1, 64, 64, 64, 56, 3)
  {
    hide Unsigned, OverlapFile;
    OverlapField(16, 2);
    OverlapField(18, 2);
    OverlapField(20, 4);
    OverlapField(24, 8);
    OverlapField(32, 8);
    OverlapField(52, 2);
    OverlapField(54, 2);
    OverlapField(56, 2);
  }

  lemma OverlapFirst()
    ensures UnpackProgramHeader(OverlapFile(), 64) == OVERLAP_LOAD
  {
    hide Unsigned, OverlapFile;
    OverlapField(64, 4);
    OverlapField(68, 4);
    OverlapField(72, 8);
    OverlapField(80, 8);
    OverlapField(96, 8);
    OverlapField(104, 8);
  }

  lemma OverlapSecond()
    ensures UnpackProgramHeader(OverlapFile(), 120) == OVERLAP_DYNAMIC
  {
    hide Unsigned, OverlapFile;
    OverlapField(120, 4);
    OverlapField(124, 4);
    OverlapField(128, 8);
    OverlapField(136, 8);
    OverlapField(152, 8);
    OverlapField(160, 8);
  }

  lemma OverlapThird()
    ensures UnpackProgramHeader(OverlapFile(), 176) == OVERLAP_LATER
  {
    hide Unsigned, OverlapFile;
    OverlapField(176, 4);
    OverlapField(180, 4);
    OverlapField(184, 8);
    OverlapField(192, 8);
    OverlapField(208, 8);
    OverlapField(216, 8);
  }

  lemma OverlapSegments()
    ensures TableInFile(UnpackFileHeader(OverlapFile()), 264)
    ensures Segments(OverlapFile(), UnpackFileHeader(OverlapFile())) == OVERLAP
  {
    hide UnpackFileHeader, UnpackProgramHeader, OverlapFile;
    OverlapHeader();
    OverlapFirst();
    OverlapSecond();
    OverlapThird();
  }

  lemma OverlapTable()
    ensures SelfContained(OverlapFile(), 232, 16) && Tag(OverlapFile(), 232) == DT_NULL
    ensures Tag(OverlapFile(), 248) == DT_NEEDED
  {
    hide Unsigned, OverlapFile;
    OverlapField(232, 8);
    OverlapField(248, 8);
    hide OverlapByte;
    assert EndsAt(OverlapFile(), 232, 16, 0);
  }

  lemma OverlapNamesNothing()
    ensures !NamesAbi(OverlapFile())
  {
    forall at: nat, prefix | at < 264 && prefix in ABI_PREFIXES ensures !AbiAt(OverlapFile(), at, prefix) {
      assert prefix[0] == 0x47 || prefix[0] == 0x43;
      assert OverlapByte(at) != 0x47 && OverlapByte(at) != 0x43;
      if at + |prefix| < 264 {
        assert OverlapFile()[at..at + |prefix|][0] == OverlapByte(at);
      }
    }
  }

  lemma OverlapStart()
    ensures GoodFileHeader(OverlapFile(), 62)
  {
    OverlapSegments();
    OverlapHeader();
    hide UnpackFileHeader;
    assert OverlapFile()[..4] == [0x7f, 0x45, 0x4c, 0x46];
  }

  lemma OverlapParts()
    ensures AllGood(OVERLAP, 264) && OVERLAP_LOAD in OVERLAP && HoldsEntry(OVERLAP_LOAD, 64)
    ensures OVERLAP_DYNAMIC in OVERLAP
    ensures forall d :: d in OVERLAP && d.kind == PT_DYNAMIC ==> d == OVERLAP_DYNAMIC
  {
  }

  lemma OverlapAcceptable()
    ensures Acceptable(OverlapFile(), 62)
  {
    OverlapSegments();
    OverlapHeader();
    OverlapStart();
    OverlapNamesNothing();
    OverlapDynamic();
    OverlapParts();
    hide OVERLAP, OVERLAP_LOAD, OVERLAP_DYNAMIC, OverlapFile, UnpackFileHeader, GoodFileHeader, NamesAbi, GoodDynamic,
         Segments, HoldsEntry, GoodSegment;
  }

  lemma OverlapDynamic()
    ensures GoodDynamic(OverlapFile(), OVERLAP, OVERLAP_DYNAMIC)
  {
    OverlapTable();
    hide OverlapByte, SelfContained;
    assert OVERLAP_LOAD in OVERLAP && Maps(OVERLAP_LOAD, OVERLAP_DYNAMIC);
  }

  lemma OverlapInMemory()
    requires AllGood(OVERLAP, 264)
    ensures InMemory(OverlapFile(), OVERLAP, 64, FilePart(OverlapFile(), OVERLAP_LATER))
  {
    hide OverlapByte;
    var part := FilePart(OverlapFile(), OVERLAP_LATER);
    forall i | 0 <= i < |part| ensures Memory(OverlapFile(), OVERLAP, 64 + i) == Some(part[i]) {
      assert Covers(OVERLAP[2], 64 + i);
      assert Owner(OVERLAP, 64 + i) == Some(2);
    }
  }

  lemma SameInMemory(data: seq<Byte>, hs: seq<ProgramHeader>, address: nat, a: seq<Byte>, b: seq<Byte>)
    requires AllGood(hs, |data|) && InMemory(data, hs, address, a) && InMemory(data, hs, address, b) && |a| == |b|
    ensures a == b
  {
    hide Memory;
    forall i | 0 <= i < |a| ensures a[i] == b[i] {
      assert Memory(data, hs, address + i) == Some(a[i]);
    }
  }

  lemma BeginsWithNeeded(data: seq<Byte>, hs: seq<ProgramHeader>, d: ProgramHeader, shown: seq<Byte>)
    requires AllGood(hs, |data|) && |shown| == d.fileSize == DYNAMIC_ENTRY_SIZE
    requires InMemory(data, hs, d.address, shown) && Tag(shown, 0) == DT_NEEDED
    ensures !RunsAlone(data, hs, d)
  {
    hide InMemory, Tag, AllGood;
    forall table: seq<Byte> | |table| == d.fileSize && InMemory(data, hs, d.address, table)
      ensures !SelfContained(table, 0, d.fileSize)
    {
      SameInMemory(data, hs, d.address, table, shown);
    }
  }

  /** Without disjointness the promise fails: this file is accepted, and the table that memory
      shows for its dynamic segment begins with a DT_NEEDED. */
  lemma OverlapIsAccepted()
    ensures Acceptable(OverlapFile(), 62)
    ensures Segments(OverlapFile(), UnpackFileHeader(OverlapFile())) == OVERLAP && OVERLAP_DYNAMIC in OVERLAP
    ensures AllGood(OVERLAP, 264) && !RunsAlone(OverlapFile(), OVERLAP, OVERLAP_DYNAMIC)
  {
    OverlapSegments();
    OverlapAcceptable();
    OverlapParts();
    OverlapInMemory();
    OverlapShown();
    hide OverlapFile, Segments, UnpackFileHeader, Acceptable, InMemory, Tag, AllGood, FilePart, OVERLAP, RunsAlone;
    BeginsWithNeeded(OverlapFile(), OVERLAP, OVERLAP_DYNAMIC, FilePart(OverlapFile(), OVERLAP_LATER));
  }

  lemma OverlapShown()
    ensures var shown := FilePart(OverlapFile(), OVERLAP_LATER);
            |shown| == DYNAMIC_ENTRY_SIZE && Tag(shown, 0) == DT_NEEDED
  {
    hide Tag;
    OverlapTable();
    SameTag(OverlapFile(), OVERLAP_LATER, 0);
  }
}
