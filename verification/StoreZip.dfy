/** The command line's streaming archive writer. */
module StoreZip {
  import opened Wrappers
  import opened Bytes
  import opened ZipFormat

  datatype TransferError = NameTooLong | TooManyEntries | FileTooLarge | ArchiveTooLarge | DirectoryTooLarge

  /** `header` with `bytes` in place of what stood at `at`. */
  function Patch(header: seq<byte>, at: nat, bytes: seq<byte>): (r: seq<byte>)
    requires at + |bytes| <= |header|
    ensures |r| == |header|
  {
    header[..at] + bytes + header[at + |bytes|..]
  }

  lemma LocalHeaderPatched(crc: nat, size: nat, nameLength: nat, isDir: bool)
    ensures var h := Patch(Patch(Patch(Patch(Patch(Zeros(30), 0, LOCAL_SIGNATURE), 10, Le32(crc)), 14, Le32(size)),
                                 18, Le32(size)), 26, Le16(nameLength));
            (if isDir then Patch(h, 8, [1, 0]) else h) == LocalHeader(nameLength, crc, size, isDir)
  {
    hide Le32, Le16;
    var p0, p1, p2, p3, p4 := LOCAL_SIGNATURE, Le32(crc), Le32(size), Le32(size), Le16(nameLength);
    assert Patch(Zeros(30), 0, p0) == p0 + Zeros(26);
    assert Patch(p0 + Zeros(26), 10, p1) == p0 + Zeros(6) + p1 + Zeros(16);
    assert Patch(p0 + Zeros(6) + p1 + Zeros(16), 14, p2) == p0 + Zeros(6) + p1 + p2 + Zeros(12);
    assert Patch(p0 + Zeros(6) + p1 + p2 + Zeros(12), 18, p3) == p0 + Zeros(6) + p1 + p2 + p3 + Zeros(8);
    var h := p0 + Zeros(6) + p1 + p2 + p3 + Zeros(4) + p4 + Zeros(2);
    assert Patch(p0 + Zeros(6) + p1 + p2 + p3 + Zeros(8), 26, p4) == h;
    assert Zeros(6) == Zeros(4) + [0, 0];
    assert Patch(h, 8, [1, 0]) == p0 + Zeros(4) + [1, 0] + p1 + p2 + p3 + Zeros(4) + p4 + Zeros(2);
  }

  lemma CentralHeaderPatched(e: CdEntry)
    ensures Patch(Patch(Patch(Patch(Patch(Patch(Zeros(46), 0, CENTRAL_SIGNATURE), 16, Le32(e.crc)), 20, Le32(e.size)),
                              24, Le32(e.size)), 28, Le16(|e.name|)), 42, Le32(e.localHeaderOffset))
         == CentralHeader(e)
  {
    hide Le32, Le16;
    var p0, p1, p2, p3, p4, p5 :=
      CENTRAL_SIGNATURE, Le32(e.crc), Le32(e.size), Le32(e.size), Le16(|e.name|), Le32(e.localHeaderOffset);
    assert Patch(Zeros(46), 0, p0) == p0 + Zeros(42);
    assert Patch(p0 + Zeros(42), 16, p1) == p0 + Zeros(12) + p1 + Zeros(26);
    assert Patch(p0 + Zeros(12) + p1 + Zeros(26), 20, p2) == p0 + Zeros(12) + p1 + p2 + Zeros(22);
    assert Patch(p0 + Zeros(12) + p1 + p2 + Zeros(22), 24, p3) == p0 + Zeros(12) + p1 + p2 + p3 + Zeros(18);
    assert Patch(p0 + Zeros(12) + p1 + p2 + p3 + Zeros(18), 28, p4)
        == p0 + Zeros(12) + p1 + p2 + p3 + p4 + Zeros(16);
    assert Patch(p0 + Zeros(12) + p1 + p2 + p3 + p4 + Zeros(16), 42, p5)
        == p0 + Zeros(12) + p1 + p2 + p3 + p4 + Zeros(12) + p5;
  }

  lemma EndRecordPatched(count: nat, cdSize: nat, cdOffset: nat)
    ensures Patch(Patch(Patch(Patch(Patch(Zeros(22), 0, EOCD_SIGNATURE), 8, Le16(count)), 10, Le16(count)),
                        12, Le32(cdSize)), 16, Le32(cdOffset))
         == EndRecord(count, cdSize, cdOffset)
  {
    hide Le32, Le16;
    var p0, p1, p2, p3, p4 := EOCD_SIGNATURE, Le16(count), Le16(count), Le32(cdSize), Le32(cdOffset);
    assert Patch(Zeros(22), 0, p0) == p0 + Zeros(18);
    assert Patch(p0 + Zeros(18), 8, p1) == p0 + Zeros(4) + p1 + Zeros(12);
    assert Patch(p0 + Zeros(4) + p1 + Zeros(12), 10, p2) == p0 + Zeros(4) + p1 + p2 + Zeros(10);
    assert Patch(p0 + Zeros(4) + p1 + p2 + Zeros(10), 12, p3) == p0 + Zeros(4) + p1 + p2 + p3 + Zeros(6);
    assert Patch(p0 + Zeros(4) + p1 + p2 + p3 + Zeros(6), 16, p4)
        == p0 + Zeros(4) + p1 + p2 + p3 + p4 + Zeros(2);
  }

  /** Copies `bytes` into the header at `at`. */
  method CopyInto(header: array<byte>, at: nat, bytes: seq<byte>)
    requires at + |bytes| <= header.Length
    modifies header
    ensures header[..] == Patch(old(header[..]), at, bytes)
  {
    for i := 0 to |bytes|
      invariant header[..at] == old(header[..at])
      invariant header[at..at + i] == bytes[..i]
      invariant header[at + i..] == old(header[at + i..])
    {
      header[at + i] := bytes[i];
    }
    assert old(header[..])[..at] == old(header[..at]);
    assert old(header[..])[at + |bytes|..] == old(header[at + |bytes|..]);
  }

  method WriteLocalHeader(name: seq<byte>, crc: nat, size: nat, isDir: bool) returns (written: seq<byte>)
    ensures written == LocalHeader(|name|, crc, size, isDir) + name
  {
    hide Patch, LocalHeader, Le16, Le32;
    var header := new byte[LOCAL_HEADER_SIZE](_ => 0);
    assert header[..] == Zeros(30);
    CopyInto(header, 0, LOCAL_SIGNATURE);
    CopyInto(header, 10, Le32(crc));
    CopyInto(header, 14, Le32(size));
    CopyInto(header, 18, Le32(size));
    CopyInto(header, 26, Le16(|name|));
    if isDir {
      CopyInto(header, 8, [0x01, 0x00]);
    }
    LocalHeaderPatched(crc, size, |name|, isDir);
    written := header[..] + name;
  }

  method WriteCentralDirectory(entry: CdEntry) returns (written: seq<byte>)
    ensures written == CentralRecord(entry)
  {
    hide Patch, CentralHeader, Le16, Le32;
    var header := new byte[CENTRAL_HEADER_SIZE](_ => 0);
    assert header[..] == Zeros(46);
    CopyInto(header, 0, CENTRAL_SIGNATURE);
    CopyInto(header, 16, Le32(entry.crc));
    CopyInto(header, 20, Le32(entry.size));
    CopyInto(header, 24, Le32(entry.size));
    CopyInto(header, 28, Le16(|entry.name|));
    CopyInto(header, 42, Le32(entry.localHeaderOffset));
    CentralHeaderPatched(entry);
    written := header[..] + entry.name;
  }

  method WriteEndRecord(entries: nat, cdSize: nat, cdOffset: nat) returns (written: seq<byte>)
    ensures written == EndRecord(entries, cdSize, cdOffset)
  {
    hide Patch, EndRecord, Le16, Le32;
    var tail := new byte[EOCD_SIZE](_ => 0);
    assert tail[..] == Zeros(22);
    CopyInto(tail, 0, EOCD_SIGNATURE);
    CopyInto(tail, 8, Le16(entries));
    CopyInto(tail, 10, Le16(entries));
    CopyInto(tail, 12, Le32(cdSize));
    CopyInto(tail, 16, Le32(cdOffset));
    EndRecordPatched(entries, cdSize, cdOffset);
    written := tail[..];
  }

  /** Sums that leave 32 bits are refused, never wrapped. */
  function CheckedAddOffset(current: nat, add: nat, error: TransferError): Result<nat, TransferError> {
    if current + add > ZIP_U32_MAX then Err(error) else Ok(current + add)
  }

  class StoreZipWriter {
    var inner: seq<byte>
    var entries: seq<CdEntry>
    var offset: nat
    /** The entries whose adds succeeded. */
    ghost var files: seq<File>

    ghost predicate Valid()
      reads this
    {
      && inner == Locals(files) && entries == Entries(files) && offset == |inner|
      && FitsSoFar(files)
    }

    constructor ()
      ensures Valid() && files == []
    {
      inner, entries, offset, files := [], [], 0, [];
    }

    /**
     Adds one entry.  It succeeds exactly when the entry still fits the format; a failure that comes after the
     entry was written leaves its bytes in the output, which the callers then abandon.
     */
    method AddEntry(name: seq<byte>, data: seq<byte>, isDir: bool) returns (r: Result<(), TransferError>)
      requires Valid()
      modifies this
      ensures r.Ok? <==> FitsSoFar(old(files) + [File(name, data, isDir)])
      ensures r.Ok? ==> Valid() && files == old(files) + [File(name, data, isDir)]
      ensures r.Err? ==> files == old(files) && entries == old(entries) && offset == old(offset)
      ensures r.Err? ==> inner == old(inner) || inner == old(inner) + LocalRecord(File(name, data, isDir))
    {
      hide LocalHeader, CrcOf, Locals, Entries;
      r := Add(name, data, data, isDir);
    }

    /**
     Adds a file: `hashed` is what the first pass over it read, `copied` what the second one wrote.  The result is
     an archive of the file only when both passes saw the same content.
     */
    method Add(name: seq<byte>, hashed: seq<byte>, copied: seq<byte>, isDir: bool) returns (r: Result<(), TransferError>)
      requires Valid()
      modifies this
      ensures r.Ok? <==> FitsSoFar(old(files) + [File(name, hashed, isDir)])
      ensures r.Ok? ==> inner == old(inner) + LocalHeader(|name|, CrcOf(hashed), |hashed|, isDir) + name + copied
      ensures r.Ok? && hashed == copied ==> Valid() && files == old(files) + [File(name, hashed, isDir)]
      ensures r.Err? ==> files == old(files) && entries == old(entries) && offset == old(offset)
      ensures r.Err? ==> inner == old(inner)
                         || inner == old(inner) + LocalHeader(|name|, CrcOf(hashed), |hashed|, isDir) + name + copied
    {
      hide LocalHeader, CrcOf, Le16, Le32, LocalSpan, Locals, Entries;
      ghost var f := File(name, hashed, isDir);
      AppendFile(files, f);
      if |name| > ZIP_U16_MAX {
        return Err(NameTooLong);
      }
      if |entries| + 1 > ZIP_U16_MAX {
        return Err(TooManyEntries);
      }
      var crc, size := CrcOf(hashed), |hashed|;
      if size > ZIP_U32_MAX {
        return Err(FileTooLarge);
      }
      var localHeaderOffset := offset;
      var header := WriteLocalHeader(name, crc, size, isDir);
      inner := inner + header;
      inner := inner + copied;
      var next := CheckedAddOffset(offset, LOCAL_HEADER_SIZE + |name| + size, ArchiveTooLarge);
      if next.Err? {
        return Err(next.error);
      }
      offset := next.value;
      entries := entries + [CdEntry(name, crc, size, localHeaderOffset)];
      files := files + [f];
      return Ok(());
    }

    /** Writes the directory and the end record; it refuses only a directory of 4 GiB or more. */
    method Finish() returns (r: Result<seq<byte>, TransferError>)
      requires Valid()
      modifies this`inner
      ensures r.Ok? <==> Fits(files)
      ensures r.Ok? ==> r.value == Archive(files)
    {
      hide CentralRecord, EndRecord, Locals, Centrals, Entries, LocalSpan, CentralSpan;
      DirectorySpan(files);
      NoCentrals();
      var cdStart := offset;
      var cdSize := 0;
      var i := 0;
      while i < |entries|
        invariant 0 <= i <= |entries|
        invariant inner == Locals(files) + Centrals(entries[..i])
        invariant cdSize == |Centrals(entries[..i])| <= ZIP_U32_MAX
      {
        var record := WriteCentralDirectory(entries[i]);
        CentralsSnoc(entries, i);
        inner := inner + record;
        var next := CheckedAddOffset(cdSize, CENTRAL_HEADER_SIZE + |entries[i].name|, DirectoryTooLarge);
        if next.Err? {
          CentralsGrow(entries, i + 1);
          return Err(next.error);
        }
        cdSize := next.value;
        i := i + 1;
      }
      assert entries[..i] == entries;
      var tail := WriteEndRecord(|entries|, cdSize, cdStart);
      inner := inner + tail;
      return Ok(inner);
    }
  }

  /** The limits the adds enforce; the directory's size is checked only at the end. */
  ghost predicate FitsSoFar(files: seq<File>) {
    && |files| <= ZIP_U16_MAX
    && (forall i :: 0 <= i < |files| ==> |files[i].name| <= ZIP_U16_MAX)
    && LocalSpan(files) <= ZIP_U32_MAX
  }

  lemma AppendRecords(files: seq<File>, f: File)
    ensures Locals(files + [f]) == Locals(files) + LocalRecord(f)
    ensures Entries(files + [f]) == Entries(files) + [EntryOf(f, |Locals(files)|)]
  {
    hide LocalRecord, CrcOf;
    assert (files + [f])[..|files|] == files;
  }

  lemma AppendFile(files: seq<File>, f: File)
    ensures Locals(files + [f]) == Locals(files) + LocalRecord(f)
    ensures Entries(files + [f]) == Entries(files) + [EntryOf(f, |Locals(files)|)]
    ensures FitsSoFar(files + [f])
            <==> FitsSoFar(files) && |files| + 1 <= ZIP_U16_MAX && |f.name| <= ZIP_U16_MAX
                 && LocalSpan(files) + LOCAL_HEADER_SIZE + |f.name| + |f.data| <= ZIP_U32_MAX
  {
    hide LocalHeader, CrcOf, Locals, Entries;
    AppendRecords(files, f);
    var more := files + [f];
    assert more[|files|] == f;
    if FitsSoFar(more) {
      assert forall i :: 0 <= i < |files| ==> files[i] == more[i];
    }
  }

  lemma CentralsSnoc(entries: seq<CdEntry>, i: nat)
    requires i < |entries|
    ensures Centrals(entries[..i + 1]) == Centrals(entries[..i]) + CentralRecord(entries[i])
  {
    assert entries[..i + 1][..i] == entries[..i];
  }

  lemma {:induction false} CentralsGrow(entries: seq<CdEntry>, i: nat)
    requires i <= |entries|
    ensures |Centrals(entries[..i])| <= |Centrals(entries)|
    decreases |entries|
  {
    hide CentralHeader;
    var n := |entries| - 1;
    if i == |entries| {
      assert entries[..i] == entries;
    } else {
      CentralsGrow(entries[..n], i);
      assert entries[..n][..i] == entries[..i];
    }
  }

  lemma {:induction false} FitsPrefix(files: seq<File>, i: nat)
    requires i <= |files| && FitsSoFar(files)
    ensures FitsSoFar(files[..i])
    decreases |files|
  {
    hide FitsSoFar;
    if i == |files| {
      assert files[..i] == files;
    } else {
      var n := |files| - 1;
      assert files[..n] + [files[n]] == files;
      AppendFile(files[..n], files[n]);
      FitsPrefix(files[..n], i);
      assert files[..n][..i] == files[..i];
    }
  }

  lemma CannotFit(files: seq<File>, i: nat)
    requires i <= |files| && !FitsSoFar(files[..i])
    ensures !Fits(files)
  {
    if FitsSoFar(files) {
      FitsPrefix(files, i);
    }
  }

  /**
   Writing a whole list, stopping at the first failure.  It succeeds exactly when every field of the archive is
   wide enough for its value, and then yields the archive.
   */
  method WriteFolderZip(files: seq<File>) returns (r: Result<seq<byte>, TransferError>)
    ensures r.Ok? <==> Fits(files)
    ensures r.Ok? ==> r.value == Archive(files)
  {
    hide LocalRecord, CentralRecord, Archive, FitsSoFar, Fits, LocalSpan, CentralSpan, Locals, Centrals, Entries,
      LocalHeader, CrcOf;
    var zip := new StoreZipWriter();
    var i := 0;
    while i < |files|
      invariant 0 <= i <= |files| && fresh(zip)
      invariant zip.Valid() && zip.files == files[..i]
    {
      assert files[..i] + [files[i]] == files[..i + 1];
      var added := zip.AddEntry(files[i].name, files[i].data, files[i].isDir);
      if added.Err? {
        CannotFit(files, i + 1);
        return Err(added.error);
      }
      i := i + 1;
    }
    assert files[..i] == files;
    r := zip.Finish();
  }
}
