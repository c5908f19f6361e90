/**
 The accepted files, stated over the raw bytes at the offsets of the System V gABI
 (chapters 4 and 5) instead of unpacked headers.
 */
module ElfBytes {
  import opened Text
  import opened ElfChecker

  // ---- numbers ----------------------------------------------------------

  lemma TwoBytes(data: seq<Byte>, at: nat)
    requires at + 2 <= |data|
    ensures Unsigned(data, at, 2) == data[at] as nat + 0x100 * data[at + 1] as nat
  {
  }

  lemma FourBytes(data: seq<Byte>, at: nat)
    requires at + 4 <= |data|
    ensures Unsigned(data, at, 4)
         == data[at] as nat + 0x100 * data[at + 1] as nat + 0x1_0000 * data[at + 2] as nat
            + 0x100_0000 * data[at + 3] as nat
  {
    TwoBytes(data, at + 2);
    assert Unsigned(data, at, 4) == data[at] as nat + 256 * Unsigned(data, at + 1, 3);
    assert Unsigned(data, at + 1, 3) == data[at + 1] as nat + 256 * Unsigned(data, at + 2, 2);
  }

  lemma EightBytes(data: seq<Byte>, at: nat)
    requires at + 8 <= |data|
    ensures Unsigned(data, at, 8) == Unsigned(data, at, 4) + 0x1_0000_0000 * Unsigned(data, at + 4, 4)
  {
    assert Unsigned(data, at, 8) == data[at] as nat + 256 * Unsigned(data, at + 1, 7);
    assert Unsigned(data, at + 1, 7) == data[at + 1] as nat + 256 * Unsigned(data, at + 2, 6);
    assert Unsigned(data, at + 2, 6) == data[at + 2] as nat + 256 * Unsigned(data, at + 3, 5);
    assert Unsigned(data, at + 3, 5) == data[at + 3] as nat + 256 * Unsigned(data, at + 4, 4);
    FourBytes(data, at);
  }

  lemma {:induction false} Fits(data: seq<Byte>, at: nat)
    requires at + 8 <= |data|
    ensures Unsigned(data, at, 8) < 0x1_0000_0000_0000_0000
  {
    EightBytes(data, at);
    FourBytes(data, at);
    FourBytes(data, at + 4);
  }

  /** Two's complement: the number whose low 64 bits these are, within 64 bits with a sign. */
  lemma SignedIs(data: seq<Byte>, at: nat)
    requires at + 8 <= |data|
    ensures var n := Signed64(data, at);
            && -0x8000_0000_0000_0000 <= n < 0x8000_0000_0000_0000
            && (n == Unsigned(data, at, 8) || n + 0x1_0000_0000_0000_0000 == Unsigned(data, at, 8))
  {
    Fits(data, at);
    hide Unsigned;
  }

  // ---- the file header --------------------------------------------------

  predicate HeaderInBytes(data: seq<Byte>, machine: nat) {
    && |data| >= 64
    && data[0] == 0x7f && data[1] as char == 'E' && data[2] as char == 'L' && data[3] as char == 'F'
    && data[4] == 2 && data[5] == 1 && data[6] == 1
    && Unsigned(data, 16, 2) in {2, 3} && Unsigned(data, 18, 2) == machine && Unsigned(data, 20, 4) == 1
    && Unsigned(data, 52, 2) == 64 && Unsigned(data, 54, 2) >= 56 && Unsigned(data, 56, 2) > 0
    && Unsigned(data, 32, 8) + Unsigned(data, 54, 2) * Unsigned(data, 56, 2) <= |data|
  }

  lemma HeaderIff(data: seq<Byte>, machine: nat)
    ensures GoodFileHeader(data, machine) <==> HeaderInBytes(data, machine)
  {
    hide Unsigned;
    if |data| >= 64 {
      assert data[..4] == [data[0], data[1], data[2], data[3]];
    }
  }

  // ---- program headers --------------------------------------------------

  /** Where program header `i` starts. */
  function At(data: seq<Byte>, i: nat): (at: nat)
    requires |data| >= 64
  {
    hide Unsigned;
    var table, size := Unsigned(data, 32, 8), Unsigned(data, 54, 2);
    table + i * size
  }

  predicate HeaderThere(data: seq<Byte>, machine: nat, i: nat) {
    HeaderInBytes(data, machine) && i < Unsigned(data, 56, 2) && At(data, i) + 56 <= |data|
  }

  lemma AllThere(data: seq<Byte>, machine: nat, i: nat)
    requires HeaderInBytes(data, machine) && i < Unsigned(data, 56, 2)
    ensures HeaderThere(data, machine, i)
    ensures var h := UnpackFileHeader(data);
            TableInFile(h, |data|) && i < h.count && Segment(data, h, i) == UnpackProgramHeader(data, At(data, i))
  {
    hide Unsigned, UnpackProgramHeader;
    EntryInTable(UnpackFileHeader(data), |data|, i);
  }

  /** Type, flags, file offset, address, size in the file and size in memory of a header. */
  lemma FieldsAre(data: seq<Byte>, at: nat)
    requires at + 56 <= |data|
    ensures var h := UnpackProgramHeader(data, at);
            && h.kind == Unsigned(data, at, 4) && h.flags == Unsigned(data, at + 4, 4)
            && h.offset == Unsigned(data, at + 8, 8) && h.address == Unsigned(data, at + 16, 8)
            && h.fileSize == Unsigned(data, at + 32, 8) && h.memorySize == Unsigned(data, at + 40, 8)
  {
  }

  /** No interpreter is asked for, and a load or dynamic segment is not larger in the file than in
      memory and lies in the file. */
  predicate SegmentInBytes(data: seq<Byte>, at: nat)
    requires at + 56 <= |data|
  {
    && Unsigned(data, at, 4) != 3
    && (Unsigned(data, at, 4) in {1, 2} ==>
          && Unsigned(data, at + 32, 8) <= Unsigned(data, at + 40, 8)
          && Unsigned(data, at + 8, 8) + Unsigned(data, at + 32, 8) <= |data|)
  }

  lemma SegmentIff(data: seq<Byte>, at: nat)
    requires at + 56 <= |data|
    ensures GoodSegment(UnpackProgramHeader(data, at), |data|) <==> SegmentInBytes(data, at)
  {
    hide Unsigned;
  }

  /** A load segment with its executable flag set holds an address in its file-backed part. */
  predicate HoldsInBytes(data: seq<Byte>, at: nat, entry: nat)
    requires at + 56 <= |data|
  {
    && Unsigned(data, at, 4) == 1 && Unsigned(data, at + 4, 4) % 2 == 1
    && Unsigned(data, at + 16, 8) <= entry < Unsigned(data, at + 16, 8) + Unsigned(data, at + 32, 8)
  }

  lemma HoldsEntryIff(data: seq<Byte>, at: nat, entry: nat)
    requires at + 56 <= |data|
    ensures HoldsEntry(UnpackProgramHeader(data, at), entry) <==> HoldsInBytes(data, at, entry)
  {
    hide Unsigned;
  }

  /** A load segment covers another segment in the file, and the addresses of both are their file
      offsets moved by the same amount. */
  predicate MapsInBytes(data: seq<Byte>, load: nat, at: nat)
    requires load + 56 <= |data| && at + 56 <= |data|
  {
    && Unsigned(data, load, 4) == 1
    && Unsigned(data, load + 8, 8) <= Unsigned(data, at + 8, 8)
    && Unsigned(data, at + 8, 8) + Unsigned(data, at + 32, 8)
       <= Unsigned(data, load + 8, 8) + Unsigned(data, load + 32, 8)
    && Unsigned(data, at + 16, 8) as int - Unsigned(data, at + 8, 8)
       == Unsigned(data, load + 16, 8) as int - Unsigned(data, load + 8, 8)
  }

  lemma MapsIff(data: seq<Byte>, load: nat, at: nat)
    requires load + 56 <= |data| && at + 56 <= |data|
    ensures Maps(UnpackProgramHeader(data, load), UnpackProgramHeader(data, at)) <==> MapsInBytes(data, load, at)
  {
    hide Unsigned;
  }

  /** A dynamic table in the file has whole entries of sixteen bytes, one of them has tag zero, and
      none before the first such has tag one. */
  ghost predicate TableInBytes(data: seq<Byte>, offset: nat, size: nat)
    requires offset + size <= |data|
  {
    size % 16 == 0 && exists n: nat :: n * 16 < size && TableEnds(data, offset, size, n)
  }

  lemma SelfContainedIff(data: seq<Byte>, offset: nat, size: nat)
    requires offset + size <= |data|
    ensures SelfContained(data, offset, size) <==> TableInBytes(data, offset, size)
  {
    hide Signed64;
    if SelfContained(data, offset, size) {
      var n: nat :| n < size / DYNAMIC_ENTRY_SIZE && EndsAt(data, offset, size, n);
      assert TableEnds(data, offset, size, n);
    }
    if size % 16 == 0 && exists n: nat :: n * 16 < size && TableEnds(data, offset, size, n) {
      var n: nat :| n * 16 < size && TableEnds(data, offset, size, n);
      assert EndsAt(data, offset, size, n);
    }
  }

  predicate TableEnds(data: seq<Byte>, offset: nat, size: nat, n: nat)
    requires offset + size <= |data| && size % 16 == 0 && n * 16 < size
  {
    && Signed64(data, offset + n * 16) == 0
    && forall k :: 0 <= k < n ==> Signed64(data, offset + k * 16) != 0 && Signed64(data, offset + k * 16) != 1
  }

  // ---- runtime symbols --------------------------------------------------

  predicate SpellsAt(data: seq<Byte>, at: nat, text: string) {
    at + |text| <= |data| && forall k :: 0 <= k < |text| ==> data[at + k] as char == text[k]
  }

  predicate IsVersionChar(c: char) {
    'A' <= c <= 'Z' || 'a' <= c <= 'z' || '0' <= c <= '9' || c in "_.-"
  }

  /** The name of a runtime's symbol versions followed by at least one version character. */
  predicate NamesVersion(data: seq<Byte>, at: nat, text: string) {
    SpellsAt(data, at, text) && at + |text| < |data| && IsVersionChar(data[at + |text|] as char)
  }

  function Bytes(text: string): (bytes: seq<Byte>)
    requires IsAscii(text)
    ensures |bytes| == |text| && forall i :: 0 <= i < |text| ==> bytes[i] as char == text[i]
  {
    seq(|text|, i requires 0 <= i < |text| => text[i] as Byte)
  }

  lemma PrefixesAre()
    ensures ABI_PREFIXES == [Bytes("GLIBC_"), Bytes("GLIBCXX_"), Bytes("CXXABI_")]
  {
    assert Bytes("GLIBC_") == [0x47, 0x4c, 0x49, 0x42, 0x43, 0x5f];
    assert Bytes("GLIBCXX_") == [0x47, 0x4c, 0x49, 0x42, 0x43, 0x58, 0x58, 0x5f];
    assert Bytes("CXXABI_") == [0x43, 0x58, 0x58, 0x41, 0x42, 0x49, 0x5f];
  }

  lemma AbiAtIff(data: seq<Byte>, at: nat, text: string)
    requires IsAscii(text)
    ensures AbiAt(data, at, Bytes(text)) <==> NamesVersion(data, at, text)
  {
    var prefix := Bytes(text);
    if at + |text| < |data| {
      var part := data[at..at + |text|];
      if SpellsAt(data, at, text) {
        assert part == prefix;
      }
      if part == prefix {
        forall k | 0 <= k < |text| ensures data[at + k] as char == text[k] {
          assert part[k] == prefix[k];
        }
        assert SpellsAt(data, at, text);
      }
    }
  }

  lemma NamesAbiIff(data: seq<Byte>)
    ensures NamesAbi(data) <==>
      exists at: nat :: NamesVersion(data, at, "GLIBC_") || NamesVersion(data, at, "GLIBCXX_")
                        || NamesVersion(data, at, "CXXABI_")
  {
    PrefixesAre();
    forall at: nat
      ensures AbiAt(data, at, ABI_PREFIXES[0]) <==> NamesVersion(data, at, "GLIBC_")
      ensures AbiAt(data, at, ABI_PREFIXES[1]) <==> NamesVersion(data, at, "GLIBCXX_")
      ensures AbiAt(data, at, ABI_PREFIXES[2]) <==> NamesVersion(data, at, "CXXABI_")
    {
      AbiAtIff(data, at, "GLIBC_");
      AbiAtIff(data, at, "GLIBCXX_");
      AbiAtIff(data, at, "CXXABI_");
    }
    hide NamesVersion;
    if NamesAbi(data) {
      var at: nat, prefix :| at < |data| && prefix in ABI_PREFIXES && AbiAt(data, at, prefix);
      assert prefix == ABI_PREFIXES[0] || prefix == ABI_PREFIXES[1] || prefix == ABI_PREFIXES[2];
    }
  }

  /** Release assets and the machines they are for. */
  lemma KnownAssetIff(name: string)
    ensures KnownAsset(name) <==> name in {"saiai-linux-x86_64", "saiai-linux-aarch64"}
    ensures name == "saiai-linux-x86_64" ==> KnownAsset(name) && AssetMachine(name) == (62, X86_64)
    ensures name == "saiai-linux-aarch64" ==> KnownAsset(name) && AssetMachine(name) == (183, Aarch64)
  {
  }

  // ---- acceptance -------------------------------------------------------

  predicate Has(data: seq<Byte>, i: nat) {
    |data| >= 64 && i < Unsigned(data, 56, 2) && At(data, i) + 56 <= |data|
  }

  /** Header `i` is of a dynamic segment that is not empty, that a load segment maps, and whose
      table is self-contained. */
  ghost predicate DynamicInBytes(data: seq<Byte>, i: nat)
    requires Has(data, i)
  {
    var at := At(data, i);
    && Unsigned(data, at + 32, 8) > 0
    && (exists j :: Has(data, j) && MapsInBytes(data, At(data, j), at))
    && Unsigned(data, at + 8, 8) + Unsigned(data, at + 32, 8) <= |data|
    && TableInBytes(data, Unsigned(data, at + 8, 8), Unsigned(data, at + 32, 8))
  }

  ghost predicate AcceptedBytes(data: seq<Byte>, machine: nat) {
    && HeaderInBytes(data, machine)
    && (forall i :: Has(data, i) ==> SegmentInBytes(data, At(data, i)))
    && Unsigned(data, 24, 8) != 0
    && (exists i :: Has(data, i) && HoldsInBytes(data, At(data, i), Unsigned(data, 24, 8)))
    && (forall i :: Has(data, i) && Unsigned(data, At(data, i), 4) == 2 ==> DynamicInBytes(data, i))
    && !exists at: nat :: NamesVersion(data, at, "GLIBC_") || NamesVersion(data, at, "GLIBCXX_")
                          || NamesVersion(data, at, "CXXABI_")
  }

  lemma HeadersAre(data: seq<Byte>, machine: nat)
    requires HeaderInBytes(data, machine) && |data| >= 64 && TableInFile(UnpackFileHeader(data), |data|)
    ensures forall i: nat :: i < |Segments(data, UnpackFileHeader(data))| ==> Has(data, i)
    ensures forall i: nat :: Has(data, i) ==>
      && i < |Segments(data, UnpackFileHeader(data))|
      && Segments(data, UnpackFileHeader(data))[i] == UnpackProgramHeader(data, At(data, i))
  {
    hide Unsigned, Segment, UnpackProgramHeader, HeaderInBytes, At, TableInFile, UnpackFileHeader, Has;
    forall i: nat ensures Has(data, i) <==> i < UnpackFileHeader(data).count {
      HasIff(data, machine, i);
    }
    forall i: nat | Has(data, i)
      ensures At(data, i) + 56 <= |data|
           && Segments(data, UnpackFileHeader(data))[i] == UnpackProgramHeader(data, At(data, i))
    {
      HeaderIs(data, machine, i);
    }
  }

  lemma HeaderIs(data: seq<Byte>, machine: nat, i: nat)
    requires HeaderInBytes(data, machine) && |data| >= 64 && TableInFile(UnpackFileHeader(data), |data|)
    requires Has(data, i) && i < UnpackFileHeader(data).count
    ensures At(data, i) + 56 <= |data|
    ensures Segments(data, UnpackFileHeader(data))[i] == UnpackProgramHeader(data, At(data, i))
  {
    assert i < Unsigned(data, 56, 2) && At(data, i) + 56 <= |data|;
    hide Unsigned, Segment, UnpackProgramHeader, HeaderInBytes, At, Segments, TableInFile, UnpackFileHeader;
    AllThere(data, machine, i);
  }

  lemma TableIs(data: seq<Byte>, machine: nat)
    requires HeaderInBytes(data, machine)
    ensures |data| >= 64 && TableInFile(UnpackFileHeader(data), |data|)
  {
    hide Unsigned;
  }

  lemma HasIff(data: seq<Byte>, machine: nat, i: nat)
    requires HeaderInBytes(data, machine) && |data| >= 64
    ensures Has(data, i) <==> i < UnpackFileHeader(data).count
  {
    hide Unsigned, HeaderInBytes, At;
    if i < UnpackFileHeader(data).count {
      AllThere(data, machine, i);
    }
  }

  lemma DynamicIff(data: seq<Byte>, machine: nat, i: nat)
    requires HeaderInBytes(data, machine) && Has(data, i)
    requires TableInFile(UnpackFileHeader(data), |data|)
    ensures GoodDynamic(data, Segments(data, UnpackFileHeader(data)), UnpackProgramHeader(data, At(data, i)))
       <==> DynamicInBytes(data, i)
  {
    hide Unsigned, UnpackProgramHeader, HeaderInBytes, Segments, UnpackFileHeader, At, MapsInBytes, Maps, TableInBytes,
         SelfContained, TableInFile;
    var hs, at := Segments(data, UnpackFileHeader(data)), At(data, i);
    HeadersAre(data, machine);
    FieldsAre(data, at);
    var d := UnpackProgramHeader(data, at);
    if d.offset + d.fileSize <= |data| {
      SelfContainedIff(data, d.offset, d.fileSize);
    }
    hide Has;
    forall j: nat | Has(data, j) ensures Maps(hs[j], d) <==> MapsInBytes(data, At(data, j), at) {
      MapsAt(data, j, at);
    }
    if load :| load in hs && Maps(load, d) {
      var j: nat :| j < |hs| && hs[j] == load;
      assert Has(data, j);
    }
  }

  lemma MapsAt(data: seq<Byte>, j: nat, at: nat)
    requires Has(data, j) && at + 56 <= |data|
    ensures Maps(UnpackProgramHeader(data, At(data, j)), UnpackProgramHeader(data, at)) <==>
      MapsInBytes(data, At(data, j), at)
  {
    hide Unsigned, Maps, MapsInBytes, At;
    MapsIff(data, At(data, j), at);
  }

  /** Acceptance, byte by byte: exactly the files with these numbers at these offsets. */
  lemma AcceptableIff(data: seq<Byte>, machine: nat)
    ensures Acceptable(data, machine) <==> AcceptedBytes(data, machine)
  {
    HeaderIff(data, machine);
    NamesAbiIff(data);
    if HeaderInBytes(data, machine) {
      TableIs(data, machine);
      SegmentsIff(data, machine);
    }
    hide HeaderInBytes, GoodFileHeader, NamesAbi, NamesVersion, Unsigned, Segments, Has, At, GoodSegment, HoldsEntry,
         GoodDynamic, SegmentInBytes, HoldsInBytes, DynamicInBytes;
  }

  lemma EntryIs(data: seq<Byte>)
    requires |data| >= 64
    ensures UnpackFileHeader(data).entry == Unsigned(data, 24, 8)
  {
    hide Unsigned;
  }

  lemma SegmentsIff(data: seq<Byte>, machine: nat)
    requires HeaderInBytes(data, machine) && TableInFile(UnpackFileHeader(data), |data|)
    ensures var header := UnpackFileHeader(data);
            var hs, entry := Segments(data, header), header.entry;
            && entry == Unsigned(data, 24, 8)
            && ((forall h :: h in hs ==> GoodSegment(h, |data|)) <==>
                (forall i :: Has(data, i) ==> SegmentInBytes(data, At(data, i))))
            && ((exists h :: h in hs && HoldsEntry(h, entry)) <==>
                exists i :: Has(data, i) && HoldsInBytes(data, At(data, i), entry))
            && ((forall d :: d in hs && d.kind == PT_DYNAMIC ==> GoodDynamic(data, hs, d)) <==>
                forall i :: Has(data, i) && Unsigned(data, At(data, i), 4) == 2 ==> DynamicInBytes(data, i))
  {
    HeadersAre(data, machine);
    EntryIs(data);
    hide Unsigned, Segments, At, GoodSegment, HoldsEntry, GoodDynamic, SegmentInBytes, HoldsInBytes, DynamicInBytes,
         HeaderInBytes, TableInFile, UnpackFileHeader, UnpackProgramHeader;
    var hs, entry := Segments(data, UnpackFileHeader(data)), UnpackFileHeader(data).entry;
    forall i: nat | Has(data, i)
      ensures GoodSegment(hs[i], |data|) <==> SegmentInBytes(data, At(data, i))
      ensures HoldsEntry(hs[i], entry) <==> HoldsInBytes(data, At(data, i), entry)
      ensures hs[i].kind == Unsigned(data, At(data, i), 4)
      ensures GoodDynamic(data, hs, hs[i]) <==> DynamicInBytes(data, i)
    {
      SegmentIff(data, At(data, i));
      HoldsEntryIff(data, At(data, i), entry);
      FieldsAre(data, At(data, i));
      DynamicIff(data, machine, i);
    }
    hide Has;
    forall h | h in hs ensures exists i: nat :: i < |hs| && Has(data, i) && hs[i] == h {
      var i: nat :| i < |hs| && hs[i] == h;
    }
  }
}
