/** The pack file: a magic header followed by entries, each a 24 byte header (record id, raw size, compressed size)
    and one compressed frame. `src/pack.rs`. */
module PackFormat {
  import opened Prelude

  /** `MJPACK01`. */
  const MAGIC: Bytes := [0x4D, 0x4A, 0x50, 0x41, 0x43, 0x4B, 0x30, 0x31]
  const ENTRY_HEADER_LEN: nat := 24

  /** A UUID, as the sixteen bytes that go into the entry header. */
  type RecordId = id: Bytes | |id| == 16 witness seq(16, _ => 0)

  const NIL_ID: RecordId := [0, 0, 0, 0, 0, 0, 0, 0, 0, 0, 0, 0, 0, 0, 0, 0]

  datatype PackError = Io | TooLarge | Corrupt

  datatype PackLocation = PackLocation(packKey: string, offset: nat, compressedSize: nat, rawSize: nat)

  /** What an entry starts with. */
  datatype Header = Header(id: RecordId, rawSize: nat, compressedSize: nat)

  /** One record handed to the writer. */
  datatype Appended = Appended(id: RecordId, raw: Bytes)

  /** The compression library, which this model cannot see into. */
  datatype Codec = Codec(compress: Bytes -> Bytes, decompress: (Bytes, nat) -> Option<Bytes>)

  /** What is assumed of it: a frame is never empty and decompresses to what went in. */
  ghost predicate LawfulFor(codec: Codec, raw: Bytes)
  {
    |codec.compress(raw)| > 0 && codec.decompress(codec.compress(raw), |raw|) == Some(raw)
  }

  ghost predicate Lawful(codec: Codec)
  {
    forall raw: Bytes :: LawfulFor(codec, raw)
  }

  // ---------------------------------------------------------------------------------------------- integers

  function BigEndian32(n: nat): (b: Bytes)
    requires n < U32_LIMIT
    ensures |b| == 4
  {
    [n / 0x100_0000, n / 0x1_0000 % 0x100, n / 0x100 % 0x100, n % 0x100]
  }

  function FromBigEndian32(b: Bytes): (n: nat)
    requires |b| == 4
  {
    (b[0] as int) * 0x100_0000 + (b[1] as int) * 0x1_0000 + (b[2] as int) * 0x100 + (b[3] as int)
  }

  lemma BigEndian32RoundTrip(n: nat)
    requires n < U32_LIMIT
    ensures FromBigEndian32(BigEndian32(n)) == n
  {
    assert n / 0x1_0000 == n / 0x100 / 0x100;
    assert n / 0x100_0000 == n / 0x1_0000 / 0x100;
  }

  // ------------------------------------------------------------------------------------------------ writing

  /** Whether both sizes of an entry fit the four byte fields that carry them. */
  predicate Fits(codec: Codec, raw: Bytes)
  {
    |raw| < U32_LIMIT && |codec.compress(raw)| < U32_LIMIT
  }

  predicate AllFit(codec: Codec, records: seq<Appended>)
  {
    forall k :: 0 <= k < |records| ==> Fits(codec, records[k].raw)
  }

  function HeaderBytes(header: Header): (bytes: Bytes)
    requires header.rawSize < U32_LIMIT && header.compressedSize < U32_LIMIT
    ensures |bytes| == ENTRY_HEADER_LEN
  {
    header.id + BigEndian32(header.rawSize) + BigEndian32(header.compressedSize)
  }

  function ParseHeader(bytes: Bytes): Header
    requires |bytes| == ENTRY_HEADER_LEN
  {
    Header(bytes[..16], FromBigEndian32(bytes[16..20]), FromBigEndian32(bytes[20..24]))
  }

  lemma HeaderRoundTrip(header: Header)
    requires header.rawSize < U32_LIMIT && header.compressedSize < U32_LIMIT
    ensures ParseHeader(HeaderBytes(header)) == header
  {
    var bytes := HeaderBytes(header);
    assert bytes[..16] == header.id;
    assert bytes[16..20] == BigEndian32(header.rawSize);
    assert bytes[20..24] == BigEndian32(header.compressedSize);
    BigEndian32RoundTrip(header.rawSize);
    BigEndian32RoundTrip(header.compressedSize);
  }

  function EntryBytes(codec: Codec, id: RecordId, raw: Bytes): (entry: Bytes)
    requires Fits(codec, raw)
    ensures |entry| == ENTRY_HEADER_LEN + |codec.compress(raw)|
  {
    HeaderBytes(Header(id, |raw|, |codec.compress(raw)|)) + codec.compress(raw)
  }

  /** Where the frame of a record lies when the record is appended to a pack of `size` bytes. */
  function LocationAt(codec: Codec, key: string, size: nat, raw: Bytes): PackLocation
  {
    PackLocation(key, size + ENTRY_HEADER_LEN, |codec.compress(raw)|, |raw|)
  }

  /** The bytes of a pack holding exactly these records. */
  function PackBytes(codec: Codec, records: seq<Appended>): (bytes: Bytes)
    requires AllFit(codec, records)
    ensures |bytes| >= |MAGIC| && bytes[..|MAGIC|] == MAGIC
  {
    if records == [] then MAGIC
    else
      var last := records[|records| - 1];
      PackBytes(codec, records[..|records| - 1]) + EntryBytes(codec, last.id, last.raw)
  }

  /** The `(id, location)` pairs the writer hands out while that pack is being written. */
  function PackEntries(codec: Codec, key: string, records: seq<Appended>): (entries: seq<(RecordId, PackLocation)>)
    requires AllFit(codec, records)
    ensures |entries| == |records|
  {
    if records == [] then []
    else
      var before := records[..|records| - 1];
      var last := records[|records| - 1];
      PackEntries(codec, key, before)
      + [(last.id, LocationAt(codec, key, |PackBytes(codec, before)|, last.raw))]
  }

  lemma AppendGrows(codec: Codec, key: string, records: seq<Appended>, id: RecordId, raw: Bytes)
    requires AllFit(codec, records) && Fits(codec, raw)
    ensures var grown := records + [Appended(id, raw)];
            && AllFit(codec, grown)
            && PackBytes(codec, grown) == PackBytes(codec, records) + EntryBytes(codec, id, raw)
            && PackEntries(codec, key, grown)
            == PackEntries(codec, key, records) + [(id, LocationAt(codec, key, |PackBytes(codec, records)|, raw))]
  {
    assert (records + [Appended(id, raw)])[..|records|] == records;
  }

  /** The writing half of a pack. `file` is what is on disk. */
  class PackWriter {
    const key: string
    var file: Bytes
    var size: nat
    /** Whether anything has been appended, which is what starts the pack's age. */
    var touched: bool
    /** The records appended so far. */
    ghost var records: seq<Appended>
    ghost const codec: Codec

    ghost predicate Valid()
      reads this
    {
      && AllFit(codec, records)
      && file == PackBytes(codec, records)
      && size == |file|
      && (touched <==> records != [])
    }

    constructor (ghost codec: Codec, key: string)
      ensures Valid() && records == []
      ensures this.key == key && this.codec == codec
    {
      this.codec := codec;
      this.key := key;
      file := MAGIC;
      size := |MAGIC|;
      touched := false;
      records := [];
    }

    /** Appends one record; `disk` is how many more bytes the disk will take, so that a write can fail part way. A
        failed append leaves the file with a torn entry at most, which `TornEntryIsDropped` says no scan reads. */
    method Append(codec: Codec, id: RecordId, raw: Bytes, disk: nat) returns (r: Result<PackLocation, PackError>)
      requires Valid() && codec == this.codec
      modifies this
      ensures r.Success? <==> Fits(codec, raw) && disk >= |EntryBytes(codec, id, raw)|
      ensures r.Success? ==> Valid() && records == old(records) + [Appended(id, raw)]
      ensures r.Success? ==> PackEntries(codec, key, records) == old(PackEntries(codec, key, records)) + [(id, r.value)]
      ensures r.Failure? ==> records == old(records) && (r.error == TooLarge <==> !Fits(codec, raw))
      ensures r.Failure? && r.error == TooLarge ==> Valid()
      ensures r.Failure? && r.error != TooLarge ==> file == old(file) + EntryBytes(codec, id, raw)[..disk]
    {
      if |raw| >= U32_LIMIT {
        return Failure(TooLarge);
      }
      var compressed := codec.compress(raw);
      if |compressed| >= U32_LIMIT {
        return Failure(TooLarge);
      }
      var entry := HeaderBytes(Header(id, |raw|, |compressed|)) + compressed;
      assert entry == EntryBytes(codec, id, raw);
      if disk < |entry| {
        file := file + entry[..disk];
        return Failure(Io);
      }
      AppendGrows(codec, key, records, id, raw);
      file := file + entry;
      var offset := size + ENTRY_HEADER_LEN;
      size := offset + |compressed|;
      touched := true;
      records := records + [Appended(id, raw)];
      return Success(PackLocation(key, offset, |compressed|, |raw|));
    }
  }

  // ------------------------------------------------------------------------------------------------ reading

  /** A ranged read followed by decompression, with both length checks. */
  function Read(codec: Codec, file: Bytes, at: PackLocation): (r: Result<Bytes, PackError>)
    ensures r.Success? ==> |r.value| == at.rawSize && at.offset + at.compressedSize <= |file|
  {
    if at.offset + at.compressedSize > |file| then Failure(Io)
    else
      match codec.decompress(file[at.offset..at.offset + at.compressedSize], at.rawSize)
      case None => Failure(Io)
      case Some(raw) => if |raw| != at.rawSize then Failure(Corrupt) else Success(raw)
  }

  /** Slicing twice is slicing once. */
  lemma SliceOfSlice(file: Bytes, lo: nat, part: Bytes, from: nat, to: nat)
    requires lo + |part| <= |file| && file[lo..lo + |part|] == part && from <= to <= |part|
    ensures file[lo + from..lo + to] == part[from..to]
  {
    forall i | 0 <= i < to - from
      ensures file[lo + from..lo + to][i] == part[from..to][i]
    {
      assert part[from + i] == file[lo..lo + |part|][from + i];
    }
  }

  /** A frame that lies whole in the file reads back as the record it was made from. */
  lemma ReadBackOne(codec: Codec, file: Bytes, position: nat, id: RecordId, raw: Bytes, key: string)
    requires Lawful(codec) && Fits(codec, raw)
    requires position + |EntryBytes(codec, id, raw)| <= |file|
    requires file[position..position + |EntryBytes(codec, id, raw)|] == EntryBytes(codec, id, raw)
    ensures Read(codec, file, LocationAt(codec, key, position, raw)) == Success(raw)
  {
    var entry := EntryBytes(codec, id, raw);
    SliceOfSlice(file, position, entry, ENTRY_HEADER_LEN, |entry|);
    assert entry[ENTRY_HEADER_LEN..|entry|] == codec.compress(raw);
    assert LawfulFor(codec, raw);
  }

  /** Appending only ever extends what is there, so the last record lies whole in anything the pack is a prefix of. */
  lemma LastEntryLies(codec: Codec, records: seq<Appended>, file: Bytes)
    requires AllFit(codec, records) && records != [] && PackBytes(codec, records) <= file
    ensures var before, last := records[..|records| - 1], records[|records| - 1];
            var position, entry := |PackBytes(codec, before)|, EntryBytes(codec, last.id, last.raw);
            && PackBytes(codec, before) <= file
            && |PackBytes(codec, records)| == position + |entry|
            && file[position..position + |entry|] == entry
  {
    var before, last := records[..|records| - 1], records[|records| - 1];
    ConcatPrefix(PackBytes(codec, before), EntryBytes(codec, last.id, last.raw), file);
  }

  lemma ConcatPrefix(a: Bytes, b: Bytes, file: Bytes)
    requires a + b <= file
    ensures a <= file && file[|a|..|a| + |b|] == b
  {
    assert file[..|a + b|] == a + b;
  }

  /** Every location handed out for a pack reads back exactly its record, from the pack or anything longer. */
  lemma {:induction false} ReadBack(codec: Codec, key: string, records: seq<Appended>, file: Bytes, k: nat)
    requires Lawful(codec) && AllFit(codec, records) && k < |records|
    requires PackBytes(codec, records) <= file
    ensures Read(codec, file, PackEntries(codec, key, records)[k].1) == Success(records[k].raw)
    ensures PackEntries(codec, key, records)[k].0 == records[k].id
  {
    var before, last := records[..|records| - 1], records[|records| - 1];
    LastEntryLies(codec, records, file);
    if k == |before| {
      ReadBackOne(codec, file, |PackBytes(codec, before)|, last.id, last.raw, key);
    } else {
      ReadBack(codec, key, before, file, k);
    }
  }

  /** Four bytes that are a number, most significant first. */
  predicate Spells(bytes: Bytes, n: nat)
  {
    |bytes| == 4 && n == (bytes[0] as int) * 16_777_216 + (bytes[1] as int) * 65_536 + (bytes[2] as int) * 256
                         + bytes[3] as int
  }

  lemma SpelledOut(n: nat)
    requires n < U32_LIMIT
    ensures Spells(BigEndian32(n), n)
  {
    BigEndian32RoundTrip(n);
  }

  /** A record as it lies in a file: its id, its two sizes, and at `offset` what it was compressed to. */
  ghost predicate FrameAt(codec: Codec, file: Bytes, offset: nat, id: RecordId, raw: Bytes)
  {
    var frame := codec.compress(raw);
    && 24 <= offset && offset + |frame| <= |file|
    && file[offset - 24..offset - 8] == id
    && Spells(file[offset - 8..offset - 4], |raw|)
    && Spells(file[offset - 4..offset], |frame|)
    && file[offset..offset + |frame|] == frame
  }

  lemma EntryLies(codec: Codec, file: Bytes, position: nat, id: RecordId, raw: Bytes)
    requires Fits(codec, raw)
    requires position + |EntryBytes(codec, id, raw)| <= |file|
    requires file[position..position + |EntryBytes(codec, id, raw)|] == EntryBytes(codec, id, raw)
    ensures FrameAt(codec, file, position + 24, id, raw)
  {
    hide Spells, BigEndian32;
    SpelledOut(|raw|);
    SpelledOut(|codec.compress(raw)|);
    var entry := EntryBytes(codec, id, raw);
    SliceOfSlice(file, position, entry, 0, 16);
    SliceOfSlice(file, position, entry, 16, 20);
    SliceOfSlice(file, position, entry, 20, 24);
    SliceOfSlice(file, position, entry, 24, |entry|);
    assert entry[16..20] == BigEndian32(|raw|);
    assert entry[20..24] == BigEndian32(|codec.compress(raw)|);
  }

  /** What a pack is, byte by byte: eight letters, and at every location handed out the record's frame. */
  lemma {:induction false} OnDisk(codec: Codec, key: string, records: seq<Appended>, file: Bytes, k: nat)
    requires AllFit(codec, records) && k < |records|
    requires PackBytes(codec, records) <= file
    ensures |file| >= 8 && forall i :: 0 <= i < 8 ==> file[i] == "MJPACK01"[i] as int
    ensures var at, record := PackEntries(codec, key, records)[k].1, records[k];
            && at.packKey == key && at.rawSize == |record.raw| && at.compressedSize == |codec.compress(record.raw)|
            && FrameAt(codec, file, at.offset, record.id, record.raw)
  {
    hide FrameAt, EntryBytes;
    var before, last := records[..|records| - 1], records[|records| - 1];
    LastEntryLies(codec, records, file);
    Lettered(codec, before, file);
    if k == |before| {
      EntryLies(codec, file, |PackBytes(codec, before)|, last.id, last.raw);
    } else {
      OnDisk(codec, key, before, file, k);
    }
  }

  lemma Lettered(codec: Codec, records: seq<Appended>, file: Bytes)
    requires AllFit(codec, records) && PackBytes(codec, records) <= file
    ensures |file| >= 8 && forall i :: 0 <= i < 8 ==> file[i] == "MJPACK01"[i] as int
  {
    hide EntryBytes;
    assert file[..8] == PackBytes(codec, records)[..8] == MAGIC;
    forall i | 0 <= i < 8
      ensures file[i] == "MJPACK01"[i] as int
    {
      assert file[i] == file[..8][i] == MAGIC[i];
    }
  }

  // ----------------------------------------------------------------------------------------------- scanning

  function HeaderAt(file: Bytes, position: nat): Header
    requires position + ENTRY_HEADER_LEN <= |file|
  {
    ParseHeader(file[position..position + ENTRY_HEADER_LEN])
  }

  /** Whether the scan accepts the entry starting at `position`: a whole header, neither field of it unwritten, and
      a frame that is all there. */
  predicate EntryAt(file: Bytes, position: nat)
  {
    && position + ENTRY_HEADER_LEN <= |file|
    && HeaderAt(file, position).id != NIL_ID
    && HeaderAt(file, position).compressedSize != 0
    && position + ENTRY_HEADER_LEN + HeaderAt(file, position).compressedSize <= |file|
  }

  /** The entries from `position` on. */
  function EntriesFrom(file: Bytes, key: string, position: nat): seq<(RecordId, PackLocation)>
    decreases |file| - position
  {
    if !EntryAt(file, position) then []
    else
      var header := HeaderAt(file, position);
      var offset := position + ENTRY_HEADER_LEN;
      [(header.id, PackLocation(key, offset, header.compressedSize, header.rawSize))]
      + EntriesFrom(file, key, offset + header.compressedSize)
  }

  lemma NextEntry(file: Bytes, key: string, position: nat)
    ensures !EntryAt(file, position) ==> EntriesFrom(file, key, position) == []
    ensures EntryAt(file, position) ==>
              var header := HeaderAt(file, position);
              var offset := position + ENTRY_HEADER_LEN;
              EntriesFrom(file, key, position)
              == [(header.id, PackLocation(key, offset, header.compressedSize, header.rawSize))]
               + EntriesFrom(file, key, offset + header.compressedSize)
  {
    hide HeaderAt;
  }

  /** Reads one header after another, from `start` to the first that is not a whole entry. */
  method ScanEntries(key: string, file: Bytes, start: nat) returns (entries: seq<(RecordId, PackLocation)>)
    requires start <= |file|
    ensures entries == EntriesFrom(file, key, start)
  {
    hide HeaderAt, EntriesFrom;
    entries := [];
    var position := start;
    assert entries + EntriesFrom(file, key, start) == EntriesFrom(file, key, start);
    while position + ENTRY_HEADER_LEN <= |file|
      invariant start <= position <= |file|
      invariant entries + EntriesFrom(file, key, position) == EntriesFrom(file, key, start)
      decreases |file| - position
    {
      NextEntry(file, key, position);
      var header := HeaderAt(file, position);
      if header.id == NIL_ID || header.compressedSize == 0 {
        break;
      }
      var offset := position + ENTRY_HEADER_LEN;
      if offset + header.compressedSize > |file| {
        break;
      }
      var entry := (header.id, PackLocation(key, offset, header.compressedSize, header.rawSize));
      Reassociate(entries, entry, EntriesFrom(file, key, offset + header.compressedSize));
      entries := entries + [entry];
      position := offset + header.compressedSize;
    }
    NextEntry(file, key, position);
    assert entries + [] == entries;
  }

  const PACK_PREFIX: string := "packs/"

  /** What follows the last slash of a path. A file in a directory is named after the key it was created under. */
  function FileName(path: string): string
  {
    if path == [] || path[|path| - 1] == '/' then [] else FileName(path[..|path| - 1]) + [path[|path| - 1]]
  }

  /** The key a scanned file's entries get. */
  function PackKey(name: string): string
  {
    PACK_PREFIX + name
  }

  predicate IsFlat(key: string)
  {
    "packs/" <= key && '/' !in key[6..]
  }

  /** Rebuilds the entry locations of one pack from its headers alone. */
  method ScanPack(name: string, file: Bytes) returns (r: Result<seq<(RecordId, PackLocation)>, PackError>)
    ensures r == if |file| < |MAGIC| then Failure(Io)
                 else if file[..|MAGIC|] != MAGIC then Failure(Corrupt)
                 else Success(EntriesFrom(file, PackKey(name), |MAGIC|))
  {
    var key := PackKey(name);
    if |file| < |MAGIC| {
      return Failure(Io);
    }
    if file[..|MAGIC|] != MAGIC {
      return Failure(Corrupt);
    }
    var entries := ScanEntries(key, file, |MAGIC|);
    return Success(entries);
  }

  /** Records as the live writer makes them: a version 4 id is never the nil one. */
  ghost predicate Writable(codec: Codec, records: seq<Appended>)
  {
    AllFit(codec, records) && forall k :: 0 <= k < |records| ==> records[k].id != NIL_ID
  }

  /** A whole entry in the file is read as what was written. */
  lemma EntryIsSeen(codec: Codec, file: Bytes, position: nat, id: RecordId, raw: Bytes, key: string)
    requires Fits(codec, raw) && |codec.compress(raw)| > 0 && id != NIL_ID
    requires position + |EntryBytes(codec, id, raw)| <= |file|
    requires file[position..position + |EntryBytes(codec, id, raw)|] == EntryBytes(codec, id, raw)
    ensures EntriesFrom(file, key, position)
         == [(id, LocationAt(codec, key, position, raw))]
          + EntriesFrom(file, key, position + |EntryBytes(codec, id, raw)|)
  {
    hide HeaderBytes, Lawful, PackBytes;
    var entry := EntryBytes(codec, id, raw);
    var header := Header(id, |raw|, |codec.compress(raw)|);
    SliceOfSlice(file, position, entry, 0, ENTRY_HEADER_LEN);
    assert entry[..ENTRY_HEADER_LEN] == HeaderBytes(header);
    HeaderRoundTrip(header);
  }

  /** Scanning from the front passes over a whole pack and leaves whatever follows it to the rest of the scan. */
  lemma {:induction false} ScanThrough(codec: Codec, key: string, records: seq<Appended>, file: Bytes)
    requires Lawful(codec) && Writable(codec, records)
    requires PackBytes(codec, records) <= file
    ensures EntriesFrom(file, key, |MAGIC|)
         == PackEntries(codec, key, records) + EntriesFrom(file, key, |PackBytes(codec, records)|)
  {
    hide EntryAt, HeaderAt, EntryBytes, EntriesFrom, LocationAt;
    if records == [] {
      assert [] + EntriesFrom(file, key, |MAGIC|) == EntriesFrom(file, key, |MAGIC|);
    } else {
      var before, last := records[..|records| - 1], records[|records| - 1];
      LastEntryLies(codec, records, file);
      ScanThrough(codec, key, before, file);
      assert LawfulFor(codec, last.raw);
      EntryIsSeen(codec, file, |PackBytes(codec, before)|, last.id, last.raw, key);
      Reassociate(PackEntries(codec, key, before),
                  (last.id, LocationAt(codec, key, |PackBytes(codec, before)|, last.raw)),
                  EntriesFrom(file, key, |PackBytes(codec, records)|));
    }
  }

  lemma Reassociate<T>(before: seq<T>, next: T, after: seq<T>)
    ensures before + ([next] + after) == before + [next] + after
  {
  }

  /** Scanning a pack returns exactly what appending to it handed out, under the key it is scanned with. */
  lemma ScanUnder(codec: Codec, key: string, records: seq<Appended>)
    requires Lawful(codec) && Writable(codec, records)
    ensures EntriesFrom(PackBytes(codec, records), key, |MAGIC|) == PackEntries(codec, key, records)
  {
    ScanThrough(codec, key, records, PackBytes(codec, records));
  }

  /** Scanning the file of a pack that was written under `key` gives the pairs that writing handed out, but under the
      flat key of the file's name: so they are the same, key and all, exactly when the key is flat or there are none. */
  lemma ScanIsExact(codec: Codec, key: string, records: seq<Appended>)
    requires Lawful(codec) && Writable(codec, records)
    ensures var flat := PackKey(FileName(key));
            && EntriesFrom(PackBytes(codec, records), flat, |MAGIC|) == PackEntries(codec, flat, records)
            && (forall k :: 0 <= k < |records| ==>
                  PackEntries(codec, flat, records)[k].1 == PackEntries(codec, key, records)[k].1.(packKey := flat))
            && (PackEntries(codec, flat, records) == PackEntries(codec, key, records) <==> records == [] || IsFlat(key))
  {
    var flat := PackKey(FileName(key));
    ScanUnder(codec, flat, records);
    EntriesUnder(codec, flat, key, records);
    FlatIsItsOwn(key);
    if records != [] && flat != key {
      assert PackEntries(codec, flat, records)[0].1.packKey != PackEntries(codec, key, records)[0].1.packKey;
    }
  }

  lemma {:induction false} EntriesUnder(codec: Codec, flat: string, key: string, records: seq<Appended>)
    requires AllFit(codec, records)
    ensures forall k :: 0 <= k < |records| ==>
              && PackEntries(codec, key, records)[k].1.packKey == key
              && PackEntries(codec, flat, records)[k]
                 == (PackEntries(codec, key, records)[k].0, PackEntries(codec, key, records)[k].1.(packKey := flat))
  {
    if records != [] {
      EntriesUnder(codec, flat, key, records[..|records| - 1]);
    }
  }

  lemma FlatIsItsOwn(key: string)
    ensures PackKey(FileName(key)) == key <==> IsFlat(key)
  {
    FileNameHasNoSlash(key);
    if IsFlat(key) {
      var name := key[|PACK_PREFIX|..];
      assert key == PACK_PREFIX + name;
      FileNameOf("packs", name);
    } else {
      var name := FileName(key);
      assert (PACK_PREFIX + name)[|PACK_PREFIX|..] == name;
    }
  }

  lemma {:induction false} FileNameHasNoSlash(path: string)
    ensures '/' !in FileName(path)
  {
    if path != [] && path[|path| - 1] != '/' {
      FileNameHasNoSlash(path[..|path| - 1]);
    }
  }

  lemma {:induction false} FileNameOf(dir: string, name: string)
    requires '/' !in name
    ensures FileName(dir + "/" + name) == name
  {
    var path := dir + "/" + name;
    if name == [] {
    } else {
      var n := |name| - 1;
      assert path[..|path| - 1] == dir + "/" + name[..n];
      FileNameOf(dir, name[..n]);
    }
  }

  /** An entry cut short, in its header or in its frame, is not seen at all. */
  lemma TornEntryIsUnseen(codec: Codec, file: Bytes, position: nat, id: RecordId, raw: Bytes)
    requires Fits(codec, raw)
    requires position <= |file| && file[position..] < EntryBytes(codec, id, raw)
    ensures !EntryAt(file, position)
  {
    var torn := file[position..];
    if |torn| >= ENTRY_HEADER_LEN {
      var header := Header(id, |raw|, |codec.compress(raw)|);
      SliceOfSlice(file, position, torn, 0, ENTRY_HEADER_LEN);
      assert torn[..ENTRY_HEADER_LEN] == EntryBytes(codec, id, raw)[..ENTRY_HEADER_LEN] == HeaderBytes(header);
      HeaderRoundTrip(header);
    }
  }

  /** A tail that is a proper prefix of one more entry adds nothing to the scan. */
  lemma TornEntryIsDropped(codec: Codec, key: string, records: seq<Appended>, next: Appended, file: Bytes)
    requires Lawful(codec) && Writable(codec, records) && Fits(codec, next.raw)
    requires PackBytes(codec, records) <= file
    requires file[|PackBytes(codec, records)|..] < EntryBytes(codec, next.id, next.raw)
    ensures EntriesFrom(file, key, |MAGIC|) == PackEntries(codec, key, records)
  {
    ScanThrough(codec, key, records, file);
    TornEntryIsUnseen(codec, file, |PackBytes(codec, records)|, next.id, next.raw);
  }

  /** How many leading records of a pack lie wholly within its first `length` bytes. */
  ghost function WholeRecords(codec: Codec, records: seq<Appended>, length: nat): (k: nat)
    requires AllFit(codec, records)
    requires length >= |MAGIC|
    ensures k <= |records| && |PackBytes(codec, records[..k])| <= length
    ensures k < |records| ==> |PackBytes(codec, records[..k + 1])| > length
  {
    hide PackBytes, Fits;
    NoRecords(codec);
    Prefixes(records, |records|);
    if records == [] || |PackBytes(codec, records)| <= length then |records|
    else
      var k := WholeRecords(codec, records[..|records| - 1], length);
      Prefixes(records, k);
      k
  }

  lemma Prefixes<T>(all: seq<T>, k: nat)
    requires k <= |all|
    ensures all[..|all|] == all
    ensures k < |all| ==> all[..|all| - 1][..k] == all[..k]
    ensures k + 1 < |all| ==> all[..|all| - 1][..k + 1] == all[..k + 1]
  {
  }

  lemma NoRecords(codec: Codec)
    ensures |PackBytes(codec, [])| == |MAGIC|
  {
  }

  lemma {:induction false} PackBytesPrefix(codec: Codec, records: seq<Appended>, k: nat)
    requires AllFit(codec, records) && k <= |records|
    ensures PackBytes(codec, records[..k]) <= PackBytes(codec, records)
  {
    if k == |records| {
      assert records[..k] == records;
    } else {
      var before := records[..|records| - 1];
      assert records[..k] == before[..k];
      PackBytesPrefix(codec, before, k);
    }
  }

  lemma CutInsideNext(kept: Bytes, next: Bytes, whole: Bytes, length: nat)
    requires kept + next <= whole && |kept| <= length < |kept + next|
    ensures kept <= whole[..length] && whole[..length][|kept|..] < next
  {
    assert whole[..|kept + next|] == kept + next;
    assert whole[..length] == (kept + next)[..length];
    assert whole[..length][|kept|..] == next[..length - |kept|];
  }

  /** Cutting a pack anywhere past its magic leaves exactly the records that were whole. */
  lemma ScanOfTruncated(codec: Codec, key: string, records: seq<Appended>, length: nat)
    requires Lawful(codec) && Writable(codec, records)
    requires |MAGIC| <= length <= |PackBytes(codec, records)|
    ensures EntriesFrom(PackBytes(codec, records)[..length], key, |MAGIC|)
         == PackEntries(codec, key, records[..WholeRecords(codec, records, length)])
  {
    hide EntryBytes, HeaderBytes, EntriesFrom, PackEntries, Fits;
    var k := WholeRecords(codec, records, length);
    var whole := PackBytes(codec, records);
    if k == |records| {
      assert records[..k] == records;
      assert whole[..length] == whole;
      ScanUnder(codec, key, records);
    } else {
      var kept, next := records[..k], records[k];
      assert records[..k + 1][..k] == kept;
      PackBytesPrefix(codec, records, k + 1);
      CutInsideNext(PackBytes(codec, kept), EntryBytes(codec, next.id, next.raw), whole, length);
      TornEntryIsDropped(codec, key, kept, next, whole[..length]);
    }
  }

  /** Zeroes after a complete pack are not read as entries. */
  lemma ScanOfZeroTail(codec: Codec, key: string, records: seq<Appended>, zeroes: Bytes)
    requires Lawful(codec) && Writable(codec, records)
    requires forall k :: 0 <= k < |zeroes| ==> zeroes[k] == 0
    ensures EntriesFrom(PackBytes(codec, records) + zeroes, key, |MAGIC|) == PackEntries(codec, key, records)
  {
    var file := PackBytes(codec, records) + zeroes;
    ScanThrough(codec, key, records, file);
    ZeroesAreUnseen(file, |PackBytes(codec, records)|);
  }

  lemma ZeroesAreUnseen(file: Bytes, position: nat)
    requires forall k :: position <= k < |file| ==> file[k] == 0
    ensures !EntryAt(file, position)
  {
    if position + ENTRY_HEADER_LEN <= |file| {
      assert file[position..position + ENTRY_HEADER_LEN][..16] == NIL_ID;
    }
  }
}
