/**
 The STORE-method Zip32 format both writers produce, and a central-directory reader for it (APPNOTE.TXT
 sections 4.3.7, 4.3.12 and 4.3.16).

 The local headers put CRC and sizes at offsets 10, 14 and 18 where section 4.3.7 has them at 14, 18 and 22, so
 the reader takes only the signature and the two lengths from a local header and everything else from the
 central directory.  What a reader of section 4.3.7 itself finds there is in LocalHeadersAgreeExactly.
 */
module ZipFormat {
  import opened Wrappers
  import opened Bytes
  import Crc32

  const LOCAL_HEADER_SIZE: nat := 30
  const CENTRAL_HEADER_SIZE: nat := 46
  const EOCD_SIZE: nat := 22
  const ZIP_U16_MAX: nat := 0xffff
  const ZIP_U32_MAX: nat := 0xffff_ffff

  const LOCAL_SIGNATURE: seq<byte> := [0x50, 0x4b, 0x03, 0x04]
  const CENTRAL_SIGNATURE: seq<byte> := [0x50, 0x4b, 0x01, 0x02]
  const EOCD_SIGNATURE: seq<byte> := [0x50, 0x4b, 0x05, 0x06]

  datatype File = File(name: seq<byte>, data: seq<byte>, isDir: bool)

  datatype CdEntry = CdEntry(name: seq<byte>, crc: nat, size: nat, localHeaderOffset: nat)

  function Octets(data: seq<byte>): seq<bv8> {
    seq(|data|, i requires 0 <= i < |data| => data[i] as bv8)
  }

  function CrcOf(data: seq<byte>): (crc: nat)
    ensures crc <= ZIP_U32_MAX
  {
    Crc32.Crc(Octets(data)) as nat
  }

  function Zeros(n: nat): (z: seq<byte>)
    ensures |z| == n && forall i :: 0 <= i < n ==> z[i] == 0
  {
    seq(n, _ => 0)
  }

  // ---------- the layout ----------

  function LocalHeader(nameLength: nat, crc: nat, size: nat, isDir: bool): (h: seq<byte>)
    ensures |h| == LOCAL_HEADER_SIZE
  {
    LOCAL_SIGNATURE + Zeros(4) + [if isDir then 1 else 0, 0] + Le32(crc) + Le32(size) + Le32(size) + Zeros(4)
    + Le16(nameLength) + Zeros(2)
  }

  function CentralHeader(e: CdEntry): (h: seq<byte>)
    ensures |h| == CENTRAL_HEADER_SIZE
  {
    CENTRAL_SIGNATURE + Zeros(12) + Le32(e.crc) + Le32(e.size) + Le32(e.size) + Le16(|e.name|) + Zeros(12)
    + Le32(e.localHeaderOffset)
  }

  function EndRecord(count: nat, cdSize: nat, cdOffset: nat): (h: seq<byte>)
    ensures |h| == EOCD_SIZE
  {
    EOCD_SIGNATURE + Zeros(4) + Le16(count) + Le16(count) + Le32(cdSize) + Le32(cdOffset) + Zeros(2)
  }

  function LocalRecord(f: File): (r: seq<byte>)
    ensures |r| == LOCAL_HEADER_SIZE + |f.name| + |f.data|
  {
    LocalHeader(|f.name|, CrcOf(f.data), |f.data|, f.isDir) + f.name + f.data
  }

  /** The bytes that the local records of the entries take. */
  function LocalSpan(files: seq<File>): nat {
    if files == [] then 0
    else LocalSpan(files[..|files| - 1]) + LOCAL_HEADER_SIZE + |files[|files| - 1].name| + |files[|files| - 1].data|
  }

  /** The bytes that the central directory takes. */
  function CentralSpan(files: seq<File>): nat {
    if files == [] then 0 else CentralSpan(files[..|files| - 1]) + CENTRAL_HEADER_SIZE + |files[|files| - 1].name|
  }

  function Locals(files: seq<File>): (r: seq<byte>)
    ensures |r| == LocalSpan(files)
  {
    if files == [] then [] else Locals(files[..|files| - 1]) + LocalRecord(files[|files| - 1])
  }

  function EntryOf(f: File, offset: nat): CdEntry {
    CdEntry(f.name, CrcOf(f.data), |f.data|, offset)
  }

  function Entries(files: seq<File>): (es: seq<CdEntry>)
    ensures |es| == |files|
  {
    if files == [] then []
    else
      var n := |files| - 1;
      Entries(files[..n]) + [EntryOf(files[n], |Locals(files[..n])|)]
  }

  function CentralRecord(e: CdEntry): (r: seq<byte>)
    ensures |r| == CENTRAL_HEADER_SIZE + |e.name|
  {
    CentralHeader(e) + e.name
  }

  function Centrals(entries: seq<CdEntry>): seq<byte> {
    if entries == [] then [] else Centrals(entries[..|entries| - 1]) + CentralRecord(entries[|entries| - 1])
  }

  /** The whole archive for a list of entries. */
  function Archive(files: seq<File>): seq<byte> {
    var centrals := Centrals(Entries(files));
    Locals(files) + centrals + EndRecord(|files|, |centrals|, |Locals(files)|)
  }

  /** No 16- or 32-bit field of the archive is too narrow for its value. */
  ghost predicate Fits(files: seq<File>) {
    && |files| <= ZIP_U16_MAX
    && (forall i :: 0 <= i < |files| ==> |files[i].name| <= ZIP_U16_MAX)
    && LocalSpan(files) <= ZIP_U32_MAX
    && CentralSpan(files) <= ZIP_U32_MAX
  }

  lemma {:induction false} DirectorySpan(files: seq<File>)
    ensures |Centrals(Entries(files))| == CentralSpan(files)
    decreases |files|
  {
    hide CentralHeader, Locals, CrcOf;
    if files != [] {
      var n := |files| - 1;
      DirectorySpan(files[..n]);
      assert Entries(files)[..n] == Entries(files[..n]);
    }
  }

  // ---------- the reader ----------

  datatype ReadEntry = ReadEntry(name: seq<byte>, crc: nat, size: nat, data: seq<byte>)

  /** The length of what follows a local header before the data, if this is a local header. */
  function ParseLocal(h: seq<byte>): Option<nat>
    requires |h| == LOCAL_HEADER_SIZE
  {
    if h[..4] != LOCAL_SIGNATURE then None else Some(FromLe16(h[26..28]) + FromLe16(h[28..30]))
  }

  /** What the reader takes from a central header; `skip` is the length of extra field and comment. */
  datatype CentralInfo = CentralInfo(nameLength: nat, skip: nat, crc: nat, size: nat, offset: nat)

  /** Only stored entries are understood. */
  function ParseCentral(h: seq<byte>): Option<CentralInfo>
    requires |h| == CENTRAL_HEADER_SIZE
  {
    if h[..4] != CENTRAL_SIGNATURE || FromLe16(h[10..12]) != 0 || FromLe32(h[20..24]) != FromLe32(h[24..28]) then None
    else Some(CentralInfo(FromLe16(h[28..30]), FromLe16(h[30..32]) + FromLe16(h[32..34]), FromLe32(h[16..20]),
                          FromLe32(h[20..24]), FromLe32(h[42..46])))
  }

  /** Number of entries, and size and offset of the directory. */
  function ParseEnd(h: seq<byte>): Option<(nat, nat, nat)>
    requires |h| == EOCD_SIZE
  {
    if h[..4] != EOCD_SIGNATURE || FromLe16(h[8..10]) != FromLe16(h[10..12]) then None
    else Some((FromLe16(h[10..12]), FromLe32(h[12..16]), FromLe32(h[16..20])))
  }

  /** The data of the entry whose local header is at `offset`. */
  function ReadLocal(b: seq<byte>, offset: nat, size: nat): Option<seq<byte>> {
    if offset + LOCAL_HEADER_SIZE > |b| then None
    else
      var gap := ParseLocal(b[offset..offset + LOCAL_HEADER_SIZE]);
      if gap.None? || offset + LOCAL_HEADER_SIZE + gap.value + size > |b| then None
      else Some(b[offset + LOCAL_HEADER_SIZE + gap.value..offset + LOCAL_HEADER_SIZE + gap.value + size])
  }

  /** Reads `count` central headers from `pos` on. */
  function ReadCentral(b: seq<byte>, pos: nat, count: nat): Option<seq<ReadEntry>>
    decreases count
  {
    if count == 0 then Some([])
    else if pos + CENTRAL_HEADER_SIZE > |b| then None
    else
      var info := ParseCentral(b[pos..pos + CENTRAL_HEADER_SIZE]);
      if info.None? then None
      else
        var CentralInfo(nameLength, skip, crc, size, offset) := info.value;
        var nameEnd := pos + CENTRAL_HEADER_SIZE + nameLength;
        if nameEnd > |b| then None
        else
          var data := ReadLocal(b, offset, size);
          var rest := ReadCentral(b, nameEnd + skip, count - 1);
          if data.None? || rest.None? then None
          else Some([ReadEntry(b[pos + CENTRAL_HEADER_SIZE..nameEnd], crc, size, data.value)] + rest.value)
  }

  /** Finds the end record at the end of the file and reads the directory it points at. */
  function ReadArchive(b: seq<byte>): Option<seq<ReadEntry>> {
    if |b| < EOCD_SIZE then None
    else
      var end := ParseEnd(b[|b| - EOCD_SIZE..]);
      if end.None? then None
      else
        var (count, cdSize, cdOffset) := end.value;
        if cdOffset + cdSize != |b| - EOCD_SIZE then None else ReadCentral(b, cdOffset, count)
  }

  // ---------- the round trip ----------

  function Expected(files: seq<File>): (r: seq<ReadEntry>)
    ensures |r| == |files|
  {
    seq(|files|, i requires 0 <= i < |files| =>
          ReadEntry(files[i].name, CrcOf(files[i].data), |files[i].data|, files[i].data))
  }

  lemma ParseLocalHeader(nameLength: nat, crc: nat, size: nat, isDir: bool)
    requires nameLength <= ZIP_U16_MAX
    ensures ParseLocal(LocalHeader(nameLength, crc, size, isDir)) == Some(nameLength)
  {
    Le16RoundTrip(nameLength);
    assert FromLe16([0, 0]) == 0;
    hide Le16, Le32, FromLe16;
    var h := LocalHeader(nameLength, crc, size, isDir);
    assert h[..4] == LOCAL_SIGNATURE && h[26..28] == Le16(nameLength) && h[28..30] == [0, 0];
  }

  lemma CentralHeaderFields(e: CdEntry)
    ensures var h := CentralHeader(e);
            && h[..4] == CENTRAL_SIGNATURE && h[10..12] == [0, 0]
            && h[16..20] == Le32(e.crc) && h[20..24] == Le32(e.size) && h[24..28] == Le32(e.size)
  {
    hide Le16, Le32;
  }

  lemma CentralHeaderTail(e: CdEntry)
    ensures var h := CentralHeader(e);
            && h[28..30] == Le16(|e.name|) && h[30..32] == [0, 0] && h[32..34] == [0, 0]
            && h[42..46] == Le32(e.localHeaderOffset)
  {
    hide Le16, Le32;
  }

  lemma ParseCentralHeader(e: CdEntry)
    requires |e.name| <= ZIP_U16_MAX && e.crc <= ZIP_U32_MAX && e.size <= ZIP_U32_MAX
    requires e.localHeaderOffset <= ZIP_U32_MAX
    ensures ParseCentral(CentralHeader(e)) == Some(CentralInfo(|e.name|, 0, e.crc, e.size, e.localHeaderOffset))
  {
    assert FromLe16([0, 0]) == 0;
    hide CentralHeader, Le16, Le32, FromLe16, FromLe32;
    Le16RoundTrip(|e.name|);
    Le32Exact(e.crc);
    Le32Exact(e.size);
    Le32Exact(e.localHeaderOffset);
    CentralHeaderFields(e);
    CentralHeaderTail(e);
  }

  lemma ParseEndRecord(count: nat, cdSize: nat, cdOffset: nat)
    requires count <= ZIP_U16_MAX && cdSize <= ZIP_U32_MAX && cdOffset <= ZIP_U32_MAX
    ensures ParseEnd(EndRecord(count, cdSize, cdOffset)) == Some((count, cdSize, cdOffset))
  {
    Le16RoundTrip(count);
    Le32Exact(cdSize);
    Le32Exact(cdOffset);
    hide Le16, Le32, FromLe16, FromLe32;
    var h := EndRecord(count, cdSize, cdOffset);
    assert h[..4] == EOCD_SIGNATURE && h[8..10] == Le16(count) && h[10..12] == Le16(count);
    assert h[12..16] == Le32(cdSize) && h[16..20] == Le32(cdOffset);
  }

  /** `part` stands at position `at` of `b`. */
  ghost predicate StandsAt(b: seq<byte>, at: nat, part: seq<byte>) {
    at + |part| <= |b| && b[at..at + |part|] == part
  }

  lemma StandsInPrefix(a: seq<byte>, b: seq<byte>, at: nat, part: seq<byte>)
    requires StandsAt(a, at, part)
    ensures StandsAt(a + b, at, part)
  {
    assert (a + b)[at..at + |part|] == a[at..at + |part|];
  }

  lemma StandsInSuffix(a: seq<byte>, b: seq<byte>, at: nat, part: seq<byte>)
    requires StandsAt(b, at, part)
    ensures StandsAt(a + b, |a| + at, part)
  {
    assert (a + b)[|a| + at..|a| + at + |part|] == b[at..at + |part|];
  }

  lemma StandsSplit(b: seq<byte>, at: nat, left: seq<byte>, right: seq<byte>)
    requires StandsAt(b, at, left + right)
    ensures StandsAt(b, at, left) && StandsAt(b, at + |left|, right)
  {
    var whole := b[at..at + |left + right|];
    assert b[at..at + |left|] == whole[..|left|] == left;
    assert b[at + |left|..at + |left| + |right|] == whole[|left|..] == right;
  }

  /** The local record of entry `i` stands where the records before it end, and that is its recorded offset. */
  lemma {:induction false} LocalAt(files: seq<File>, i: nat)
    requires i < |files|
    ensures StandsAt(Locals(files), |Locals(files[..i])|, LocalRecord(files[i]))
    ensures Entries(files)[i] == EntryOf(files[i], |Locals(files[..i])|)
    decreases |files|
  {
    hide LocalRecord, EntryOf;
    var n := |files| - 1;
    if i < n {
      LocalAt(files[..n], i);
      assert files[..n][..i] == files[..i];
      StandsInPrefix(Locals(files[..n]), LocalRecord(files[n]), |Locals(files[..i])|, LocalRecord(files[i]));
    } else {
      StandsInSuffix(Locals(files[..n]), LocalRecord(files[n]), 0, LocalRecord(files[n]));
    }
  }

  lemma {:induction false} CentralAt(entries: seq<CdEntry>, i: nat)
    requires i < |entries|
    ensures StandsAt(Centrals(entries), |Centrals(entries[..i])|, CentralRecord(entries[i]))
    ensures |Centrals(entries[..i + 1])| == |Centrals(entries[..i])| + |CentralRecord(entries[i])|
    decreases |entries|
  {
    hide CentralHeader;
    var n := |entries| - 1;
    assert entries[..i + 1][..i] == entries[..i];
    if i < n {
      CentralAt(entries[..n], i);
      assert entries[..n][..i] == entries[..i];
      StandsInPrefix(Centrals(entries[..n]), CentralRecord(entries[n]), |Centrals(entries[..i])|, CentralRecord(entries[i]));
    } else {
      StandsInSuffix(Centrals(entries[..n]), CentralRecord(entries[n]), 0, CentralRecord(entries[n]));
    }
  }

  /** Every recorded offset, read back from its four bytes, is where that entry's local record stands. */
  lemma OffsetsPointAtLocalHeaders(files: seq<File>, i: nat)
    requires Fits(files) && i < |files|
    ensures var e := Entries(files)[i];
            && FromLe32(Le32(e.localHeaderOffset)) == e.localHeaderOffset
            && FromLe32(Le32(e.size)) == |files[i].data| && FromLe32(Le32(e.crc)) == CrcOf(files[i].data)
            && FromLe16(Le16(|e.name|)) == |files[i].name|
            && StandsAt(Archive(files), e.localHeaderOffset, LocalRecord(files[i]))
  {
    hide LocalRecord, CrcOf, Le32, FromLe32, Centrals, EndRecord;
    LocalAt(files, i);
    var e := Entries(files)[i];
    Le32Exact(e.localHeaderOffset);
    Le32Exact(e.size);
    Le32Exact(e.crc);
    Le16RoundTrip(|e.name|);
    var centrals := Centrals(Entries(files));
    StandsInPrefix(Locals(files), centrals + EndRecord(|files|, |centrals|, |Locals(files)|),
                   e.localHeaderOffset, LocalRecord(files[i]));
    assert Locals(files) + centrals + EndRecord(|files|, |centrals|, |Locals(files)|)
        == Locals(files) + (centrals + EndRecord(|files|, |centrals|, |Locals(files)|));
  }

  lemma ReadLocalRecord(b: seq<byte>, offset: nat, f: File)
    requires StandsAt(b, offset, LocalRecord(f)) && |f.name| <= ZIP_U16_MAX
    ensures ReadLocal(b, offset, |f.data|) == Some(f.data)
  {
    hide LocalHeader, CrcOf, ParseLocal;
    var header := LocalHeader(|f.name|, CrcOf(f.data), |f.data|, f.isDir);
    StandsSplit(b, offset, header + f.name, f.data);
    StandsSplit(b, offset, header, f.name);
    ParseLocalHeader(|f.name|, CrcOf(f.data), |f.data|, f.isDir);
  }

  lemma CentralStands(files: seq<File>, i: nat)
    requires i < |files|
    ensures StandsAt(Archive(files), |Locals(files)| + |Centrals(Entries(files)[..i])|, CentralRecord(Entries(files)[i]))
  {
    hide Locals, Centrals, Entries, EndRecord, CentralRecord, StandsAt;
    var entries := Entries(files);
    var centrals := Centrals(entries);
    CentralAt(entries, i);
    StandsInSuffix(Locals(files), centrals, |Centrals(entries[..i])|, CentralRecord(entries[i]));
    StandsInPrefix(Locals(files) + centrals, EndRecord(|files|, |centrals|, |Locals(files)|),
                   |Locals(files)| + |Centrals(entries[..i])|, CentralRecord(entries[i]));
  }

  /** One step of the reader at the central record of `e`, whose data has been found. */
  lemma ReadCentralRecord(b: seq<byte>, pos: nat, count: nat, e: CdEntry, data: seq<byte>)
    requires StandsAt(b, pos, CentralRecord(e)) && count > 0
    requires |e.name| <= ZIP_U16_MAX && e.crc <= ZIP_U32_MAX && e.size <= ZIP_U32_MAX
    requires e.localHeaderOffset <= ZIP_U32_MAX && ReadLocal(b, e.localHeaderOffset, e.size) == Some(data)
    ensures var rest := ReadCentral(b, pos + |CentralRecord(e)|, count - 1);
            ReadCentral(b, pos, count)
              == if rest.None? then None else Some([ReadEntry(e.name, e.crc, e.size, data)] + rest.value)
  {
    hide CentralHeader, ReadLocal, ParseCentral;
    StandsSplit(b, pos, CentralHeader(e), e.name);
    ParseCentralHeader(e);
  }

  /** The whole entry `i` is read from where its central record stands. */
  lemma ReadEntryAt(files: seq<File>, i: nat)
    requires Fits(files) && i < |files|
    ensures var pos := |Locals(files)| + |Centrals(Entries(files)[..i])|;
            var rest := ReadCentral(Archive(files), |Locals(files)| + |Centrals(Entries(files)[..i + 1])|, |files| - i - 1);
            ReadCentral(Archive(files), pos, |files| - i)
              == if rest.None? then None else Some([Expected(files)[i]] + rest.value)
  {
    hide Archive, ReadLocal, ReadCentral, LocalRecord, CentralRecord, CrcOf, Locals, Centrals, Entries, StandsAt;
    var e := Entries(files)[i];
    OffsetsPointAtLocalHeaders(files, i);
    LocalAt(files, i);
    LocalsMonotone(files, i);
    ReadLocalRecord(Archive(files), e.localHeaderOffset, files[i]);
    CentralStands(files, i);
    CentralAt(Entries(files), i);
    ReadCentralRecord(Archive(files), |Locals(files)| + |Centrals(Entries(files)[..i])|, |files| - i, e, files[i].data);
  }

  lemma ReadNothing(b: seq<byte>, pos: nat)
    ensures ReadCentral(b, pos, 0) == Some([])
  {
  }

  lemma {:induction false} ReadCentralFrom(files: seq<File>, i: nat)
    requires Fits(files) && i <= |files|
    ensures ReadCentral(Archive(files), |Locals(files)| + |Centrals(Entries(files)[..i])|, |files| - i)
         == Some(Expected(files)[i..])
    decreases |files| - i
  {
    hide Archive, Locals, Centrals, Entries, Fits, ReadCentral;
    if i < |files| {
      ReadCentralFrom(files, i + 1);
      ReadEntryAt(files, i);
      assert Expected(files)[i..] == [Expected(files)[i]] + Expected(files)[i + 1..];
    } else {
      assert Expected(files)[i..] == [];
      ReadNothing(Archive(files), |Locals(files)| + |Centrals(Entries(files)[..i])|);
    }
  }

  lemma {:induction false} LocalsMonotone(files: seq<File>, i: nat)
    requires i < |files|
    ensures |Locals(files[..i])| + |files[i].data| <= |Locals(files)|
  {
    hide LocalHeader, CrcOf;
    LocalAt(files, i);
  }

  /**
   Main result: the reader recovers exactly the names, sizes, checksums and data of the entries, in order, from
   every archive whose fields fit.
   */
  lemma ArchiveRoundTrip(files: seq<File>)
    requires Fits(files)
    ensures ReadArchive(Archive(files)) == Some(Expected(files))
  {
    hide EndRecord, ReadCentral, ParseEnd, Locals, Centrals, Entries;
    var b := Archive(files);
    var centrals := Centrals(Entries(files));
    DirectorySpan(files);
    ParseEndRecord(|files|, |centrals|, |Locals(files)|);
    assert b[|b| - EOCD_SIZE..] == EndRecord(|files|, |centrals|, |Locals(files)|);
    assert Entries(files)[..0] == [];
    assert |Centrals([])| == 0 by { NoCentrals(); }
    ReadCentralFrom(files, 0);
    assert Expected(files)[0..] == Expected(files);
  }

  lemma NoCentrals()
    ensures Centrals([]) == []
  {
  }

  // ---------- a reader that trusts the local headers ----------

  /** Compression method, checksum, compressed and uncompressed size where section 4.3.7 has them. */
  datatype LocalFields = LocalFields(compression: nat, crc: nat, compressed: nat, uncompressed: nat)

  function StandardLocalFields(h: seq<byte>): LocalFields
    requires |h| == LOCAL_HEADER_SIZE
  {
    LocalFields(FromLe16(h[8..10]), FromLe32(h[14..18]), FromLe32(h[18..22]), FromLe32(h[22..26]))
  }

  lemma WhereTheFieldsAre(nameLength: nat, crc: nat, size: nat, isDir: bool)
    ensures var h := LocalHeader(nameLength, crc, size, isDir);
            h[8..10] == [if isDir then 1 else 0, 0] && h[14..18] == Le32(size) && h[18..22] == Le32(size) && h[22..26] == Zeros(4)
  {
    hide Le16, Le32, Zeros;
  }

  lemma StandardFieldsAre(f: File)
    requires |f.data| <= ZIP_U32_MAX
    ensures StandardLocalFields(LocalHeader(|f.name|, CrcOf(f.data), |f.data|, f.isDir))
         == LocalFields(if f.isDir then 1 else 0, |f.data|, |f.data|, 0)
  {
    hide LocalHeader, CrcOf, Le32, FromLe32, FromLe16, Zeros;
    WhereTheFieldsAre(|f.name|, CrcOf(f.data), |f.data|, f.isDir);
    Le32Exact(|f.data|);
    SmallFields();
  }

  lemma SmallFields()
    ensures FromLe32(Zeros(4)) == 0 && FromLe16([1, 0]) == 1 && FromLe16([0, 0]) == 0
  {
  }

  lemma EmptyChecksum()
    ensures CrcOf([]) == 0
  {
    assert Octets([]) == [];
    Crc32.CrcOfNothing();
  }

  /** The local header of an entry, found where the directory says. */
  function LocalHeaderAt(b: seq<byte>, offset: nat): Option<seq<byte>> {
    if offset + LOCAL_HEADER_SIZE > |b| then None else Some(b[offset..offset + LOCAL_HEADER_SIZE])
  }

  lemma TheLocalHeader(files: seq<File>, i: nat)
    requires Fits(files) && i < |files|
    ensures var f, e := files[i], Entries(files)[i];
            && LocalHeaderAt(Archive(files), e.localHeaderOffset) == Some(LocalHeader(|f.name|, CrcOf(f.data), |f.data|, f.isDir))
            && e.crc == CrcOf(f.data) && e.size == |f.data| <= ZIP_U32_MAX
  {
    hide Archive, Locals, Entries, CrcOf, LocalHeader, Le16, Le32, FromLe16, FromLe32;
    OffsetsPointAtLocalHeaders(files, i);
    LocalAt(files, i);
    LocalsMonotone(files, i);
    HeaderOfRecord(Archive(files), Entries(files)[i].localHeaderOffset, files[i]);
  }

  lemma HeaderOfRecord(b: seq<byte>, at: nat, f: File)
    requires StandsAt(b, at, LocalRecord(f))
    ensures LocalHeaderAt(b, at) == Some(LocalHeader(|f.name|, CrcOf(f.data), |f.data|, f.isDir))
  {
    hide LocalHeader, CrcOf;
    var header := LocalHeader(|f.name|, CrcOf(f.data), |f.data|, f.isDir);
    assert LocalRecord(f) == header + (f.name + f.data);
    assert b[at..at + LOCAL_HEADER_SIZE] == b[at..at + |LocalRecord(f)|][..LOCAL_HEADER_SIZE] == header;
  }

  /**
   A reader of section 4.3.7 finds the checksum and sizes of the central directory in an entry's local header if and
   only if the entry is empty, and its compression method as well if and only if it is moreover no directory.
   */
  lemma LocalHeadersAgreeExactly(files: seq<File>, i: nat)
    requires Fits(files) && i < |files|
    ensures var e := Entries(files)[i];
            var header := LocalHeaderAt(Archive(files), e.localHeaderOffset);
            && header.Some? && |header.value| == LOCAL_HEADER_SIZE
            && var local := StandardLocalFields(header.value);
               && (local.crc == e.crc && local.compressed == e.size && local.uncompressed == e.size <==> files[i].data == [])
               && (local == LocalFields(0, e.crc, e.size, e.size) <==> files[i].data == [] && !files[i].isDir)
  {
    hide Archive, Entries, CrcOf, LocalHeader, LocalHeaderAt, StandardLocalFields, Fits;
    TheLocalHeader(files, i);
    StandardFieldsAre(files[i]);
    EmptyChecksum();
  }
}
