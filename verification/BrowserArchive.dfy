/** The browser's archive builder, its size estimate, and its agreement with the command line's writer. */
module BrowserArchive {
  import opened Wrappers
  import opened Bytes
  import opened ZipFormat
  import opened ArchivePaths
  import opened UniquePaths
  import opened StoreZip
  import opened Utf8Text

  const BROWSER_ZIP_MAX_ENTRIES: nat := 500

  datatype BrowserEntry = BrowserEntry(path: JsString, data: seq<byte>)

  datatype ZipError = NothingToPackage | TooManyFiles | BadPath(error: PathError) | OverLimit | TooLargeForZip32

  // ---------- header writers ----------

  method WriteU16(view: array<byte>, offset: nat, value: nat)
    requires offset + 2 <= view.Length
    modifies view
    ensures view[..] == Patch(old(view[..]), offset, Le16(value))
  {
    view[offset] := value % 256;
    view[offset + 1] := value / 256 % 256;
  }

  method WriteU32(view: array<byte>, offset: nat, value: nat)
    requires offset + 4 <= view.Length
    modifies view
    ensures view[..] == Patch(old(view[..]), offset, Le32(value))
  {
    view[offset] := value % 256;
    view[offset + 1] := value / 256 % 256;
    view[offset + 2] := value / 0x1_0000 % 256;
    view[offset + 3] := value / 0x100_0000 % 256;
  }

  method LocalHeaderBytes(nameLength: nat, crc: nat, size: nat) returns (written: seq<byte>)
    ensures written == LocalHeader(nameLength, crc, size, false)
  {
    hide Patch, LocalHeader, Le16, Le32;
    var header := new byte[LOCAL_HEADER_SIZE](_ => 0);
    assert header[..] == Zeros(30);
    CopyInto(header, 0, LOCAL_SIGNATURE);
    WriteU32(header, 10, crc);
    WriteU32(header, 14, size);
    WriteU32(header, 18, size);
    WriteU16(header, 26, nameLength);
    LocalHeaderPatched(crc, size, nameLength, false);
    written := header[..];
  }

  method CentralHeaderBytes(entry: CdEntry) returns (written: seq<byte>)
    ensures written == CentralHeader(entry)
  {
    hide Patch, CentralHeader, Le16, Le32;
    var header := new byte[CENTRAL_HEADER_SIZE](_ => 0);
    assert header[..] == Zeros(46);
    CopyInto(header, 0, CENTRAL_SIGNATURE);
    WriteU32(header, 16, entry.crc);
    WriteU32(header, 20, entry.size);
    WriteU32(header, 24, entry.size);
    WriteU16(header, 28, |entry.name|);
    WriteU32(header, 42, entry.localHeaderOffset);
    CentralHeaderPatched(entry);
    written := header[..];
  }

  method EndOfCentralDirectory(entryCount: nat, cdSize: nat, cdOffset: nat) returns (written: seq<byte>)
    ensures written == EndRecord(entryCount, cdSize, cdOffset)
  {
    hide Patch, EndRecord, Le16, Le32;
    var tail := new byte[EOCD_SIZE](_ => 0);
    assert tail[..] == Zeros(22);
    CopyInto(tail, 0, EOCD_SIGNATURE);
    WriteU16(tail, 8, entryCount);
    WriteU16(tail, 10, entryCount);
    WriteU32(tail, 12, cdSize);
    WriteU32(tail, 16, cdOffset);
    EndRecordPatched(entryCount, cdSize, cdOffset);
    written := tail[..];
  }

  // ---------- sizes ----------

  function ContentBytes(files: seq<File>): nat {
    if files == [] then 0 else ContentBytes(files[..|files| - 1]) + |files[|files| - 1].data|
  }

  function Overhead(files: seq<File>): nat {
    if files == [] then EOCD_SIZE
    else Overhead(files[..|files| - 1]) + LOCAL_HEADER_SIZE + CENTRAL_HEADER_SIZE + |files[|files| - 1].name| * 2
  }

  lemma {:induction false} SpansAddUp(files: seq<File>)
    ensures LocalSpan(files) + CentralSpan(files) + EOCD_SIZE == ContentBytes(files) + Overhead(files)
    decreases |files|
  {
    if files != [] {
      SpansAddUp(files[..|files| - 1]);
    }
  }

  /** The length of an archive is content plus fixed overhead per entry. */
  lemma ArchiveLength(files: seq<File>)
    ensures |Archive(files)| == ContentBytes(files) + Overhead(files)
  {
    hide Locals, Centrals, Entries, ContentBytes, Overhead, LocalSpan, CentralSpan;
    SpansAddUp(files);
    DirectorySpan(files);
  }

  // ---------- the builder ----------

  ghost predicate PathsNormalize(entries: seq<BrowserEntry>) {
    forall i :: 0 <= i < |entries| ==> Normalize(entries[i].path).Ok?
  }

  ghost function BrowserFiles(entries: seq<BrowserEntry>): (files: seq<File>)
    requires PathsNormalize(entries)
    ensures |files| == |entries|
  {
    seq(|entries|, i requires 0 <= i < |entries| =>
          File(Utf8(Normalize(entries[i].path).value), entries[i].data, false))
  }

  /** Exactly the selections that can be packaged. */
  ghost predicate Buildable(entries: seq<BrowserEntry>, maxBytes: Option<nat>) {
    && 0 < |entries| <= BROWSER_ZIP_MAX_ENTRIES
    && PathsNormalize(entries)
    && (maxBytes.Some? ==> ContentBytes(BrowserFiles(entries)) + Overhead(BrowserFiles(entries)) <= maxBytes.value)
    && LocalSpan(BrowserFiles(entries)) <= ZIP_U32_MAX
  }

  method NormalizeEntries(entries: seq<BrowserEntry>) returns (r: Result<seq<File>, ZipError>)
    ensures r.Ok? <==> PathsNormalize(entries)
    ensures r.Ok? ==> r.value == BrowserFiles(entries)
  {
    hide Normalize, Utf8;
    var files: seq<File> := [];
    for i := 0 to |entries|
      invariant |files| == i
      invariant forall j :: 0 <= j < i ==> Normalize(entries[j].path).Ok?
      invariant forall j :: 0 <= j < i ==>
                  files[j] == File(Utf8(Normalize(entries[j].path).value), entries[j].data, false)
    {
      var path := Normalize(entries[i].path);
      if path.Err? {
        return Err(BadPath(path.error));
      }
      files := files + [File(Utf8(path.value), entries[i].data, false)];
    }
    return Ok(files);
  }

  /** The directory of the archive has the data of every entry in order, under a name that decodes to the normalised path. */
  ghost predicate ReadsAs(archive: seq<byte>, entries: seq<BrowserEntry>) {
    && var read := ReadArchive(archive);
    && read.Some? && |read.value| == |entries|
    && forall i :: 0 <= i < |entries| ==>
         && read.value[i].data == entries[i].data
         && Normalize(entries[i].path).Ok?
         && DecodeUtf8(read.value[i].name) == Some(Mended(Normalize(entries[i].path).value))
  }

  lemma ReadsBack(entries: seq<BrowserEntry>)
    requires PathsNormalize(entries) && Fits(BrowserFiles(entries))
    ensures ReadsAs(Archive(BrowserFiles(entries)), entries)
  {
    var files := BrowserFiles(entries);
    ArchiveRoundTrip(files);
    hide Normalize, Utf8, DecodeUtf8, Archive, ReadArchive, CrcOf, Fits, Mended;
    forall i | 0 <= i < |entries|
      ensures Expected(files)[i].data == entries[i].data
      ensures DecodeUtf8(Expected(files)[i].name) == Some(Mended(Normalize(entries[i].path).value))
    {
      Utf8RoundTrip(Normalize(entries[i].path).value);
    }
  }

  method BuildStoreZip(entries: seq<BrowserEntry>, maxBytes: Option<nat>) returns (r: Result<seq<byte>, ZipError>)
    ensures r.Ok? <==> Buildable(entries, maxBytes)
    ensures r.Ok? ==> r.value == Archive(BrowserFiles(entries)) && Fits(BrowserFiles(entries))
    ensures r.Ok? ==> ReadsAs(r.value, entries)
  {
    hide LocalHeader, CentralHeader, EndRecord, CrcOf, Locals, Centrals, Entries, ContentBytes, Overhead, LocalSpan, CentralSpan,
      Archive, Utf8, Normalize, ReadsAs;
    if |entries| == 0 {
      return Err(NothingToPackage);
    }
    if |entries| > BROWSER_ZIP_MAX_ENTRIES {
      return Err(TooManyFiles);
    }
    var normalized := NormalizeEntries(entries);
    if normalized.Err? {
      return Err(normalized.error);
    }
    var files := normalized.value;
    NamesFit(entries);
    ArchiveLength(files);
    Start();

    var contentBytes, overhead := 0, EOCD_SIZE;
    for i := 0 to |files|
      invariant contentBytes == ContentBytes(files[..i]) && overhead == Overhead(files[..i])
    {
      SizesSnoc(files, i);
      contentBytes := contentBytes + |files[i].data|;
      overhead := overhead + (LOCAL_HEADER_SIZE + CENTRAL_HEADER_SIZE + |files[i].name| * 2);
    }
    assert files[..|files|] == files;
    if maxBytes.Some? && contentBytes + overhead > maxBytes.value {
      return Err(OverLimit);
    }

    var parts: seq<byte>, central: seq<CdEntry>, offset := [], [], 0;
    for i := 0 to |files|
      invariant parts == Locals(files[..i]) && central == Entries(files[..i])
      invariant offset == |parts| <= ZIP_U32_MAX
    {
      var f := files[i];
      LocalsSnoc(files, i);
      LocalsGrow(files, i + 1);
      if |f.data| > ZIP_U32_MAX {
        return Err(TooLargeForZip32);
      }
      var crc := CrcOf(f.data);
      var header := LocalHeaderBytes(|f.name|, crc, |f.data|);
      parts := parts + header + f.name + f.data;
      central := central + [CdEntry(f.name, crc, |f.data|, offset)];
      offset := offset + LOCAL_HEADER_SIZE + |f.name| + |f.data|;
      if offset > ZIP_U32_MAX {
        return Err(TooLargeForZip32);
      }
    }

    var cdStart, cdSize := offset, 0;
    for i := 0 to |central|
      invariant parts == Locals(files) + Centrals(central[..i])
      invariant cdSize == |Centrals(central[..i])|
    {
      var header := CentralHeaderBytes(central[i]);
      CentralsSnoc(central, i);
      parts := parts + header + central[i].name;
      cdSize := cdSize + CENTRAL_HEADER_SIZE + |central[i].name|;
    }
    assert central[..|central|] == central;
    var tail := EndOfCentralDirectory(|central|, cdSize, cdStart);
    parts := parts + tail;
    assert parts == Archive(files) by { ArchiveParts(files); }
    DirectoryFits(files);
    if maxBytes.Some? && |parts| > maxBytes.value {
      return Err(OverLimit);
    }
    if |parts| == 0 {
      return Err(NothingToPackage);
    }
    ReadsBack(entries);
    return Ok(parts);
  }

  lemma Start()
    ensures ContentBytes([]) == 0 && Overhead([]) == EOCD_SIZE && Locals([]) == [] && Entries([]) == [] && Centrals([]) == []
  {
  }

  lemma ArchiveParts(files: seq<File>)
    ensures Archive(files) == Locals(files) + Centrals(Entries(files))
                              + EndRecord(|files|, |Centrals(Entries(files))|, |Locals(files)|)
  {
  }

  lemma SizesSnoc(files: seq<File>, i: nat)
    requires i < |files|
    ensures ContentBytes(files[..i + 1]) == ContentBytes(files[..i]) + |files[i].data|
    ensures Overhead(files[..i + 1]) == Overhead(files[..i]) + LOCAL_HEADER_SIZE + CENTRAL_HEADER_SIZE + |files[i].name| * 2
  {
    assert files[..i + 1][..i] == files[..i];
  }

  lemma LocalsSnoc(files: seq<File>, i: nat)
    requires i < |files|
    ensures Locals(files[..i + 1]) == Locals(files[..i]) + LocalRecord(files[i])
    ensures Entries(files[..i + 1]) == Entries(files[..i]) + [EntryOf(files[i], |Locals(files[..i])|)]
  {
    hide LocalRecord;
    assert files[..i + 1][..i] == files[..i];
  }

  lemma {:induction false} LocalsGrow(files: seq<File>, i: nat)
    requires i <= |files|
    ensures |Locals(files[..i])| <= |Locals(files)|
    decreases |files|
  {
    hide LocalHeader;
    if i == |files| {
      assert files[..i] == files;
    } else {
      LocalsGrow(files[..|files| - 1], i);
      assert files[..|files| - 1][..i] == files[..i];
    }
  }

  lemma NamesFit(entries: seq<BrowserEntry>)
    requires PathsNormalize(entries)
    ensures forall i :: 0 <= i < |entries| ==> |BrowserFiles(entries)[i].name| <= 3 * MAX_PATH_CHARS
  {
    hide Normalize, Utf8;
    forall i | 0 <= i < |entries|
      ensures |BrowserFiles(entries)[i].name| <= 3 * MAX_PATH_CHARS
    {
      NormalizedIsClean(entries[i].path);
    }
  }

  lemma {:induction false} DirectoryBound(files: seq<File>)
    requires forall i :: 0 <= i < |files| ==> |files[i].name| <= 3 * MAX_PATH_CHARS
    ensures CentralSpan(files) <= |files| * (CENTRAL_HEADER_SIZE + 3 * MAX_PATH_CHARS)
    decreases |files|
  {
    if files != [] {
      DirectoryBound(files[..|files| - 1]);
    }
  }

  lemma DirectoryFits(files: seq<File>)
    requires |files| <= BROWSER_ZIP_MAX_ENTRIES
    requires forall i :: 0 <= i < |files| ==> |files[i].name| <= 3 * MAX_PATH_CHARS
    ensures CentralSpan(files) == |Centrals(Entries(files))| <= ZIP_U32_MAX
  {
    hide Centrals, Entries, CentralSpan;
    DirectoryBound(files);
    DirectorySpan(files);
  }

  /** The two writers, given the same files, produce the same bytes whenever both succeed. */
  method WritersAgree(entries: seq<BrowserEntry>, maxBytes: Option<nat>)
    returns (browser: Result<seq<byte>, ZipError>, cli: Result<seq<byte>, TransferError>)
    requires PathsNormalize(entries)
    ensures browser.Ok? ==> cli == Ok(browser.value)
    ensures browser.Ok? ==> ReadArchive(browser.value) == Some(Expected(BrowserFiles(entries)))
    ensures cli.Ok? && browser.Err? ==>
              |entries| == 0 || |entries| > BROWSER_ZIP_MAX_ENTRIES
              || (maxBytes.Some? && |Archive(BrowserFiles(entries))| > maxBytes.value)
  {
    ArchiveLength(BrowserFiles(entries));
    hide Archive, ReadArchive, Expected;
    var normalized := NormalizeEntries(entries);
    var files := normalized.value;
    cli := WriteFolderZip(files);
    browser := BuildStoreZip(entries, maxBytes);
    if browser.Ok? {
      ArchiveRoundTrip(files);
    }
  }

  // ---------- the estimate ----------

  /** The size shown before packaging. */
  method EstimateArchiveBytes(entries: seq<BrowserEntry>) returns (total: nat)
    ensures total == ContentBytes(AsFiles(entries)) + Overhead(AsFiles(entries))
  {
    hide ContentBytes, Overhead;
    Start();
    var files := AsFiles(entries);
    var contentBytes, overhead := 0, 22;
    for i := 0 to |entries|
      invariant contentBytes == ContentBytes(files[..i]) && overhead == Overhead(files[..i])
    {
      SizesSnoc(files, i);
      var nameLen := |Utf8(entries[i].path)|;
      contentBytes := contentBytes + |entries[i].data|;
      overhead := overhead + (76 + nameLen * 2);
    }
    assert files[..|entries|] == files;
    return contentBytes + overhead;
  }

  function AsFiles(entries: seq<BrowserEntry>): (files: seq<File>)
    ensures |files| == |entries|
  {
    seq(|entries|, i requires 0 <= i < |entries| => File(Utf8(entries[i].path), entries[i].data, false))
  }

  /** The entries of an archive selection: the raw paths de-duplicated. */
  ghost function SelectionEntries(names: seq<JsString>, data: seq<seq<byte>>): seq<BrowserEntry>
    requires |names| == |data| && AllNormalize(names)
  {
    seq(|names|, i requires 0 <= i < |names| => BrowserEntry(Unique(Bases(names))[i], data[i]))
  }

  /**
   Whenever a selection's archive can be built, the estimate is its exact length: normalising the selection's
   de-duplicated paths again changes none of them.
   */
  lemma EstimateIsExact(names: seq<JsString>, data: seq<seq<byte>>, maxBytes: Option<nat>)
    requires |names| == |data| && AllNormalize(names)
    requires Buildable(SelectionEntries(names, data), maxBytes)
    ensures var entries := SelectionEntries(names, data);
            && BrowserFiles(entries) == AsFiles(entries)
            && |Archive(BrowserFiles(entries))| == ContentBytes(AsFiles(entries)) + Overhead(AsFiles(entries))
  {
    hide Normalize, Unique, Bases, Utf8, Archive, Clean;
    var entries := SelectionEntries(names, data);
    forall i | 0 <= i < |entries|
      ensures BrowserFiles(entries)[i] == AsFiles(entries)[i]
    {
      UniqueIsFixed(names, i);
    }
    ArchiveLength(AsFiles(entries));
  }
}
